/** The query side of db/tag.go: the statement and arguments
    `GetTagsByName` sends, and the loop that turns result rows into tags.
    The database is not modelled; a result set is a sequence of rows, and
    a row whose `Scan` fails is `None`. */
module TagQueries {
  import opened Wrappers
  import opened Records

  /** A prepared statement as the text between its placeholders: each
      piece is literal SQL or a `?`. */
  datatype Piece = Sql(text: string) | Placeholder

  /** The number of `?` in a statement. */
  function Placeholders(q: seq<Piece>): nat {
    if |q| == 0 then 0 else (if q[0].Placeholder? then 1 else 0) + Placeholders(q[1..])
  }

  lemma {:induction false} PlaceholdersAppend(a: seq<Piece>, b: seq<Piece>)
    ensures Placeholders(a + b) == Placeholders(a) + Placeholders(b)
  {
    if |a| == 0 {
      assert a + b == b;
    } else {
      assert (a + b)[1..] == a[1..] + b;
      PlaceholdersAppend(a[1..], b);
    }
  }

  /** `strings.Repeat`: `s` written `n` times. */
  function Repeat(s: seq<Piece>, n: nat): (r: seq<Piece>)
    ensures |r| == n * |s|
  {
    if n == 0 then [] else s + Repeat(s, n - 1)
  }

  lemma {:induction false} RepeatPlaceholders(s: seq<Piece>, n: nat)
    ensures Placeholders(Repeat(s, n)) == n * Placeholders(s)
  {
    if n > 0 {
      RepeatPlaceholders(s, n - 1);
      PlaceholdersAppend(s, Repeat(s, n - 1));
    }
  }

  /** "SELECT * FROM Tag WHERE owner=? AND name IN (? " in pieces. */
  const QueryHead := [Sql("SELECT * FROM Tag WHERE owner="), Placeholder, Sql(" AND name IN ("), Placeholder, Sql(" ")]

  /** The statement `GetTagsByName` prepares for `n` names: the head, then
      ",?" repeated n-1 times, then ")". For no names `strings.Repeat` gets
      a count of -1 and panics (`None`). */
  function TagsByNameQuery(n: nat): (r: Option<seq<Piece>>)
    ensures r.None? <==> n == 0
  {
    if n == 0 then None else Some(QueryHead + Repeat([Sql(","), Placeholder], n - 1) + [Sql(")")])
  }

  /** The statement holds n+1 placeholders: the owner and one per name. */
  lemma PlaceholderCount(n: nat)
    requires n >= 1
    ensures Placeholders(TagsByNameQuery(n).value) == n + 1
  {
    var rep := Repeat([Sql(","), Placeholder], n - 1);
    RepeatPlaceholders([Sql(","), Placeholder], n - 1);
    PlaceholdersAppend(QueryHead, rep);
    PlaceholdersAppend(QueryHead + rep, [Sql(")")]);
    assert Placeholders([Sql(","), Placeholder]) == 1;
    assert Placeholders(QueryHead) == 2;
  }

  /** A bound query argument. */
  datatype Arg = IntArg(i: int) | StrArg(s: string) | ListArg(items: seq<string>)

  /** The arguments `GetTagsByName` binds as written: the user id and the
      whole names slice as one argument. */
  function TagsByNameArgsAsWritten(user: int, names: seq<string>): (args: seq<Arg>)
    ensures |args| == 2
  {
    [IntArg(user), ListArg(names)]
  }

  /** The arguments one per placeholder: the user id, then each name. */
  function TagsByNameArgs(user: int, names: seq<string>): (args: seq<Arg>)
    ensures |args| == |names| + 1
    ensures args[0] == IntArg(user)
    ensures forall k :: 0 <= k < |names| ==> args[k + 1] == StrArg(names[k])
  {
    [IntArg(user)] + seq(|names|, k requires 0 <= k < |names| => StrArg(names[k]))
  }

  /** As written, placeholders and arguments agree in number only for
      exactly one name. */
  lemma ArgsMatchOnlyForOneName(user: int, names: seq<string>)
    requires |names| >= 1
    ensures Placeholders(TagsByNameQuery(|names|).value) == |TagsByNameArgsAsWritten(user, names)|
            <==> |names| == 1
  {
    PlaceholderCount(|names|);
  }

  /** With one argument per name, placeholders and arguments always agree. */
  lemma ArgsMatchPlaceholders(user: int, names: seq<string>)
    requires |names| >= 1
    ensures Placeholders(TagsByNameQuery(|names|).value) == |TagsByNameArgs(user, names)|
  {
    PlaceholderCount(|names|);
  }

  /** The columns `scanTag` reads. */
  datatype TagRow = TagRow(id: int, name: string, description: string)

  /** `scanTag`: a tag owned by `user`, or an error when the row does not
      scan. */
  function ScanTag(user: int, row: Option<TagRow>): (r: Result<Tag>)
    ensures r.Ok? <==> row.Some?
    ensures r.Ok? ==> r.value == Tag(row.value.id, row.value.name, row.value.description, user)
  {
    match row
    case None => Err("scan failed")
    case Some(rw) => Ok(Tag(rw.id, rw.name, rw.description, user))
  }

  /** The tags of the rows, in order, when every row scans. */
  function TagsOf(user: int, rows: seq<Option<TagRow>>): (tags: seq<Tag>)
    requires forall k :: 0 <= k < |rows| ==> rows[k].Some?
    ensures |tags| == |rows|
    ensures forall k :: 0 <= k < |rows| ==> tags[k] == ScanTag(user, rows[k]).value
  {
    seq(|rows|, k requires 0 <= k < |rows| => ScanTag(user, rows[k]).value)
  }

  /** `scanTags`: every row's tag, in order; or the tags of the rows before
      the first row that fails, and the failure. */
  method ScanTags(user: int, rows: seq<Option<TagRow>>) returns (tags: seq<Tag>, failed: bool)
    ensures !failed <==> forall k :: 0 <= k < |rows| ==> rows[k].Some?
    ensures !failed ==> tags == TagsOf(user, rows)
    ensures failed ==>
              exists k :: 0 <= k < |rows| && rows[k].None? && (forall j :: 0 <= j < k ==> rows[j].Some?)
                          && tags == TagsOf(user, rows[..k])
  {
    tags := [];
    var i := 0;
    while i < |rows|
      invariant 0 <= i <= |rows|
      invariant forall j :: 0 <= j < i ==> rows[j].Some?
      invariant tags == TagsOf(user, rows[..i])
    {
      var r := ScanTag(user, rows[i]);
      if r.Err? {
        failed := true;
        return;
      }
      tags := tags + [r.value];
      i := i + 1;
    }
    assert rows[..i] == rows;
    failed := false;
  }
}
