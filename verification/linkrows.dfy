/** The row side of db/link.go: a blank link, turning one result row into a
    link, and the loop over a result set. The database is not modelled: a
    result set is a sequence of rows, and a row whose `Scan` fails is
    `None`. URL parsing is a parameter. */
module LinkRows {
  import opened Wrappers
  import opened Records

  /** The columns `scanLink` reads, in the order it reads them. */
  datatype LinkRow = LinkRow(
    id: int,
    urlText: string,
    domain: string,
    revDomain: string,
    title: string,
    description: string,
    timestamp: int)

  /** `BlankLink`: a link owned by `user` with every other field zero. */
  function BlankLink(user: int): (l: DbLink)
    ensures l.owner == user
    ensures l.id == 0 && l.title == "" && l.description == "" && l.timestamp == 0
    ensures l.url.None? && l.tags.None?
  {
    DbLink(0, "", "", 0, None, None, user)
  }

  /** `scanLink`: fails when the row does not scan or its stored URL does
      not parse; otherwise a link owned by `user` with the row's fields. */
  function ScanLink(parseUrl: string -> Option<Url>, user: int, row: Option<LinkRow>): (r: Result<DbLink>)
    ensures r.Ok? <==> row.Some? && parseUrl(row.value.urlText).Some?
    ensures r.Ok? ==>
              r.value.url == parseUrl(row.value.urlText) && r.value.owner == user
              && r.value.id == row.value.id && r.value.title == row.value.title
              && r.value.description == row.value.description
              && r.value.timestamp == row.value.timestamp && r.value.tags.None?
  {
    match row
    case None => Err("scan failed")
    case Some(rw) =>
      match parseUrl(rw.urlText)
      case None => Err("malformed URL")
      case Some(u) => Ok(DbLink(rw.id, rw.title, rw.description, rw.timestamp, Some(u), None, user))
  }

  /** The links of the rows that scan, in row order. */
  function Scanned(parseUrl: string -> Option<Url>, user: int, rows: seq<Option<LinkRow>>): (links: seq<DbLink>)
    ensures |links| <= |rows|
  {
    if |rows| == 0 then []
    else
      var prefix := Scanned(parseUrl, user, rows[..|rows| - 1]);
      match ScanLink(parseUrl, user, rows[|rows| - 1])
      case Ok(l) => prefix + [l]
      case Err(_) => prefix
  }

  /** Every row of `rows` scans. */
  predicate AllScan(parseUrl: string -> Option<Url>, user: int, rows: seq<Option<LinkRow>>) {
    forall k :: 0 <= k < |rows| ==> ScanLink(parseUrl, user, rows[k]).Ok?
  }

  /** When every row scans, the scanned links are the rows one for one. */
  lemma {:induction false} ScannedAll(parseUrl: string -> Option<Url>, user: int, rows: seq<Option<LinkRow>>)
    requires AllScan(parseUrl, user, rows)
    ensures |Scanned(parseUrl, user, rows)| == |rows|
    ensures forall k :: 0 <= k < |rows| ==>
              Scanned(parseUrl, user, rows)[k] == ScanLink(parseUrl, user, rows[k]).value
  {
    if |rows| > 0 {
      ScannedAll(parseUrl, user, rows[..|rows| - 1]);
    }
  }

  /** `scanLinks`. With `ignoreErrors`, the links of the rows that scan and
      no error. Without it, the links of the rows before the first row that
      fails, and whether one failed. */
  method ScanLinks(parseUrl: string -> Option<Url>, user: int, rows: seq<Option<LinkRow>>, ignoreErrors: bool)
    returns (links: seq<DbLink>, failed: bool)
    ensures ignoreErrors ==> !failed && links == Scanned(parseUrl, user, rows)
    ensures !ignoreErrors && !failed ==>
              AllScan(parseUrl, user, rows) && links == Scanned(parseUrl, user, rows)
    ensures !ignoreErrors && failed ==>
              exists k :: 0 <= k < |rows| && ScanLink(parseUrl, user, rows[k]).Err?
                          && AllScan(parseUrl, user, rows[..k])
                          && links == Scanned(parseUrl, user, rows[..k])
  {
    links := [];
    failed := false;
    var i := 0;
    while i < |rows|
      invariant 0 <= i <= |rows|
      invariant links == Scanned(parseUrl, user, rows[..i])
      invariant !ignoreErrors ==> AllScan(parseUrl, user, rows[..i])
    {
      assert rows[..i + 1][..i] == rows[..i];
      var r := ScanLink(parseUrl, user, rows[i]);
      if r.Err? {
        if ignoreErrors {
          i := i + 1;
          continue;
        }
        failed := true;
        return;
      }
      links := links + [r.value];
      i := i + 1;
    }
    assert rows[..i] == rows;
  }

  /** `TryGetLink` on the row the lookup returned, and `GetLink`, which
      turns any error into nil. */
  function TryGetLink(parseUrl: string -> Option<Url>, user: int, row: Option<LinkRow>): Result<DbLink> {
    ScanLink(parseUrl, user, row)
  }

  function GetLink(parseUrl: string -> Option<Url>, user: int, row: Option<LinkRow>): (r: Option<DbLink>)
    ensures r.None? <==> TryGetLink(parseUrl, user, row).Err?
    ensures r.Some? ==> r.value == TryGetLink(parseUrl, user, row).value
  {
    TryGetLink(parseUrl, user, row).ToOption()
  }
}
