/** Importing a dump of links (api/import.go): the format switch, the two
    readers, and the loop that inserts every link. URL parsing, RFC 3339
    time parsing and the clock are parameters; the outcomes of the
    database writes are inputs, as sets of link positions whose insert or
    tag update fails, and the ids the database hands out are a function of
    the position. */
module Import {
  import opened Wrappers
  import opened Http
  import opened Text
  import opened Records
  import LinkApi

  /** What the import needs from outside. */
  datatype ImportEnv = ImportEnv(
    parseUrl: string -> Option<Url>,
    parseTime: string -> Option<int>,
    now: int,
    nextId: nat -> int)

  /** An entry of a Pinboard export: `href`, `description` (the title),
      `extended` (the description), `time` and space-separated `tags`. */
  datatype PinboardLink = PinboardLink(href: string, description: string, extended: string,
                                       time: string, tags: string)

  /** The tags of a Pinboard entry: `strings.Split` on single spaces, with
      the one-empty-piece result of an empty string turned into no tags. */
  function PinboardTags(s: string): (tags: seq<string>)
    ensures s == "" ==> tags == []
    ensures s != "" ==> |tags| == Count(s, ' ') + 1 && Join(tags, " ") == s
    ensures forall k :: 0 <= k < |tags| ==> ' ' !in tags[k]
  {
    var parts := Split(s, ' ');
    JoinSplit(s, ' ');
    if |parts| == 1 && |parts[0]| == 0 then [] else parts
  }

  /** A non-empty tag string is never read as no tags. */
  lemma PinboardTagsEmptyOnlyForEmpty(s: string)
    ensures PinboardTags(s) == [] <==> s == ""
  {
    if s != "" {
      JoinSplit(s, ' ');
    }
  }

  /** Tags without spaces, at least one of them non-empty or more than one,
      survive being written out and read back. */
  lemma PinboardTagsRoundTrip(tags: seq<string>)
    requires |tags| >= 1 && tags != [""]
    requires forall k :: 0 <= k < |tags| ==> ' ' !in tags[k]
    ensures PinboardTags(Join(tags, " ")) == tags
  {
    SplitJoin(tags, ' ');
  }

  /** Two spaces in a row make an empty tag. */
  lemma DoubleSpaceMakesEmptyTag()
    ensures PinboardTags("a  b") == ["a", "", "b"]
  {
    SplitAppend("a", " b", ' ');
    SplitAppend("", "b", ' ');
    SplitNoSep("a", ' ');
    SplitNoSep("b", ' ');
    SplitNoSep("", ' ');
    assert "a  b" == "a" + [' '] + " b";
    assert " b" == "" + [' '] + "b";
  }

  /** The link a Pinboard entry becomes: href as URL (nil when it does not
      parse), description as title, extended as description, the entry's
      time or else the current time, and its tags. */
  function FromPinboard(env: ImportEnv, user: int, p: PinboardLink): (l: DbLink)
    ensures l.url == env.parseUrl(p.href)
    ensures l.title == p.description && l.description == p.extended
    ensures env.parseTime(p.time).Some? ==> l.timestamp == env.parseTime(p.time).value
    ensures env.parseTime(p.time).None? ==> l.timestamp == env.now
    ensures l.tags == Some(PinboardTags(p.tags))
    ensures l.id == 0 && l.owner == user
  {
    var ts := env.parseTime(p.time).GetOr(env.now);
    DbLink(0, p.description, p.extended, ts, env.parseUrl(p.href), Some(PinboardTags(p.tags)), user)
  }

  /** `readLindebDump`: each JSON link through `apiToDBLink`; `None` when
      the body does not decode (a 400 has been written). */
  function ReadLindebDump(env: ImportEnv, user: int, body: Result<seq<ApiLink>>): (r: Option<seq<DbLink>>)
    ensures r.None? <==> body.Err?
    ensures r.Some? ==> |r.value| == |body.value|
                        && forall k :: 0 <= k < |r.value| ==>
                             r.value[k] == LinkApi.ApiToDbLink(env.parseUrl, user, body.value[k])
  {
    match body
    case Err(_) => None
    case Ok(ls) => Some(seq(|ls|, k requires 0 <= k < |ls| => LinkApi.ApiToDbLink(env.parseUrl, user, ls[k])))
  }

  /** `readPinboardDump`: each entry through `FromPinboard`. */
  function ReadPinboardDump(env: ImportEnv, user: int, body: Result<seq<PinboardLink>>): (r: Option<seq<DbLink>>)
    ensures r.None? <==> body.Err?
    ensures r.Some? ==> |r.value| == |body.value|
                        && forall k :: 0 <= k < |r.value| ==> r.value[k] == FromPinboard(env, user, body.value[k])
  {
    match body
    case Err(_) => None
    case Ok(ls) => Some(seq(|ls|, k requires 0 <= k < |ls| => FromPinboard(env, user, ls[k])))
  }

  /** Which writes fail: positions whose insert fails and positions whose
      tag update fails. */
  datatype Failures = Failures(insert: set<nat>, tags: set<nat>)

  /** The insert loop's state: the first status written (200 until an
      error is written), the answer array, the links written so far, and
      whether the loop has ended by a return or a panic. */
  datatype LoopState = LoopState(status: int, body: seq<ApiLink>, inserted: seq<DbLink>,
                                 ended: bool, panicked: bool)

  /** The link at position k once inserted: `Insert` stamps the current
      time and takes the database's id. */
  function Saved(env: ImportEnv, links: seq<DbLink>, k: nat): DbLink
    requires k < |links|
  {
    links[k].(timestamp := env.now, id := env.nextId(k))
  }

  /** The answer entry for a link. */
  function Answer(l: DbLink): ApiLink {
    LinkApi.Copy(LinkApi.DbToApiLink(l))
  }

  /** `http.Error` after a status was written leaves the status alone. */
  function FirstStatus(st: LoopState, code: int): int {
    if st.status == StatusOK then code else st.status
  }

  /** One turn of the insert loop at position k. `Insert` reads the URL's
      host, so a nil URL panics. With `stopOnInsertError` false (the code
      as written) a failed insert writes a 500 and the loop goes on; with
      it true the handler returns there. */
  function InsertStep(env: ImportEnv, links: seq<DbLink>, f: Failures, stopOnInsertError: bool,
                      k: nat, st: LoopState): (r: LoopState)
    requires k < |links| && |st.body| == |links|
    ensures |r.body| == |links|
  {
    if links[k].url.None? then st.(ended := true, panicked := true)
    else
      var stamped := links[k].(timestamp := env.now);
      var insertFailed := k in f.insert;
      var st1 := if insertFailed then st.(status := FirstStatus(st, StatusInternalServerError))
                 else st.(inserted := st.inserted + [Saved(env, links, k)]);
      if insertFailed && stopOnInsertError then st1.(ended := true)
      else if k in f.tags then st1.(status := FirstStatus(st1, StatusInternalServerError), ended := true)
      else
        var link := if insertFailed then stamped else Saved(env, links, k);
        st1.(body := st1.body[k := Answer(link)])
  }

  /** The insert loop from position k on. */
  function InsertFrom(env: ImportEnv, links: seq<DbLink>, f: Failures, stopOnInsertError: bool,
                      k: nat, st: LoopState): (r: LoopState)
    requires k <= |links| && |st.body| == |links|
    ensures |r.body| == |links|
    decreases |links| - k
  {
    if k == |links| || st.ended then st
    else
      var next := InsertStep(env, links, f, stopOnInsertError, k, st);
      InsertFrom(env, links, f, stopOnInsertError, k + 1, next)
  }

  const Blank := ApiLink(0, "", "", 0, "", "", None, 0, "")

  function InsertAll(env: ImportEnv, links: seq<DbLink>, f: Failures, stopOnInsertError: bool): (r: LoopState)
    ensures |r.body| == |links|
  {
    InsertFrom(env, links, f, stopOnInsertError, 0, LoopState(StatusOK, seq(|links|, _ => Blank), [], false, false))
  }

  /** The reply of the loop: a panic (`None`), the first error status, or
      200 with the answer array. */
  function Reply(st: LoopState): Option<Reply<seq<ApiLink>>> {
    if st.panicked then None
    else if st.status != StatusOK then Some(Status(st.status))
    else Some(Json(StatusOK, st.body))
  }

  /** `ImportLinks`: "lindeb" and "pinboard" select their reader, any other
      format answers 415; a body that does not decode answers 400; either
      way nothing is inserted. Returns the reply (`None` for a panic) and
      the links written. */
  function ImportLinksWith(env: ImportEnv, q: Query, user: int, lindebBody: Result<seq<ApiLink>>,
                           pinboardBody: Result<seq<PinboardLink>>, f: Failures, stopOnInsertError: bool)
    : (r: (Option<Reply<seq<ApiLink>>>, seq<DbLink>))
    ensures QueryGet(q, "format") !in {"lindeb", "pinboard"} ==> r == (Some(Status(StatusUnsupportedMediaType)), [])
    ensures QueryGet(q, "format") == "lindeb" && lindebBody.Err? ==> r == (Some(Status(StatusBadRequest)), [])
    ensures QueryGet(q, "format") == "pinboard" && pinboardBody.Err? ==> r == (Some(Status(StatusBadRequest)), [])
    ensures QueryGet(q, "format") == "lindeb" && lindebBody.Ok? ==>
              var st := InsertAll(env, ReadLindebDump(env, user, lindebBody).value, f, stopOnInsertError);
              r == (Reply(st), st.inserted)
    ensures QueryGet(q, "format") == "pinboard" && pinboardBody.Ok? ==>
              var st := InsertAll(env, ReadPinboardDump(env, user, pinboardBody).value, f, stopOnInsertError);
              r == (Reply(st), st.inserted)
  {
    var format := QueryGet(q, "format");
    var read := if format == "lindeb" then ReadLindebDump(env, user, lindebBody)
                else if format == "pinboard" then ReadPinboardDump(env, user, pinboardBody)
                else None;
    if format != "lindeb" && format != "pinboard" then (Some(Status(StatusUnsupportedMediaType)), [])
    else match read
      case None => (Some(Status(StatusBadRequest)), [])
      case Some(links) =>
        var st := InsertAll(env, links, f, stopOnInsertError);
        (Reply(st), st.inserted)
  }

  /** The handler as written. */
  function ImportLinksAsWritten(env: ImportEnv, q: Query, user: int, lindebBody: Result<seq<ApiLink>>,
                                pinboardBody: Result<seq<PinboardLink>>, f: Failures)
    : (r: (Option<Reply<seq<ApiLink>>>, seq<DbLink>))
  {
    ImportLinksWith(env, q, user, lindebBody, pinboardBody, f, false)
  }

  /** The handler returning at a failed insert. */
  function ImportLinks(env: ImportEnv, q: Query, user: int, lindebBody: Result<seq<ApiLink>>,
                       pinboardBody: Result<seq<PinboardLink>>, f: Failures)
    : (r: (Option<Reply<seq<ApiLink>>>, seq<DbLink>))
  {
    ImportLinksWith(env, q, user, lindebBody, pinboardBody, f, true)
  }

  /** The first n saved links, in order. */
  function SavedUpTo(env: ImportEnv, links: seq<DbLink>, n: nat): (r: seq<DbLink>)
    requires n <= |links|
    ensures |r| == n && forall k :: 0 <= k < n ==> r[k] == Saved(env, links, k)
  {
    seq(n, k requires 0 <= k < n => Saved(env, links, k))
  }

  /** Nothing fails and every URL parsed. */
  predicate Clean(links: seq<DbLink>, f: Failures) {
    forall k :: 0 <= k < |links| ==> links[k].url.Some? && k !in f.insert && k !in f.tags
  }

  lemma {:induction false} InsertFromClean(env: ImportEnv, links: seq<DbLink>, f: Failures, stop: bool,
                                           k: nat, st: LoopState)
    requires k <= |links| && |st.body| == |links| && Clean(links, f)
    requires st.status == StatusOK && !st.ended && !st.panicked
    requires st.inserted == SavedUpTo(env, links, k)
    requires forall j :: 0 <= j < k ==> st.body[j] == Answer(Saved(env, links, j))
    ensures var r := InsertFrom(env, links, f, stop, k, st);
            && r.status == StatusOK && !r.panicked
            && r.inserted == SavedUpTo(env, links, |links|)
            && forall j :: 0 <= j < |links| ==> r.body[j] == Answer(Saved(env, links, j))
    decreases |links| - k
  {
    if k < |links| {
      var next := InsertStep(env, links, f, stop, k, st);
      assert SavedUpTo(env, links, k) + [Saved(env, links, k)] == SavedUpTo(env, links, k + 1);
      InsertFromClean(env, links, f, stop, k + 1, next);
    }
  }

  /** When every URL parses and no write fails, either form of the loop
      answers 200 with one entry per input link, at the same index, and
      writes every link in order. */
  lemma ImportAllClean(env: ImportEnv, links: seq<DbLink>, f: Failures, stop: bool)
    requires Clean(links, f)
    ensures var r := InsertAll(env, links, f, stop);
            && Reply(r) == Some(Json(StatusOK, r.body))
            && r.inserted == SavedUpTo(env, links, |links|)
            && forall j :: 0 <= j < |links| ==> r.body[j] == Answer(Saved(env, links, j))
  {
    InsertFromClean(env, links, f, stop, 0,
                    LoopState(StatusOK, seq(|links|, _ => Blank), [], false, false));
  }

  /** A dump in a known format that decodes and whose writes all succeed
      is imported whole: 200 with one answer entry per link, in order, and
      every link written. */
  lemma ImportLinksClean(env: ImportEnv, q: Query, user: int, lindebBody: Result<seq<ApiLink>>,
                         pinboardBody: Result<seq<PinboardLink>>, f: Failures, stop: bool, links: seq<DbLink>)
    requires QueryGet(q, "format") == "lindeb" ==> ReadLindebDump(env, user, lindebBody) == Some(links)
    requires QueryGet(q, "format") == "pinboard" ==> ReadPinboardDump(env, user, pinboardBody) == Some(links)
    requires QueryGet(q, "format") in {"lindeb", "pinboard"} && Clean(links, f)
    ensures var r := ImportLinksWith(env, q, user, lindebBody, pinboardBody, f, stop);
            && r.0.Some? && r.0.value.Json? && r.0.value.status == StatusOK && |r.0.value.body| == |links|
            && (forall j :: 0 <= j < |links| ==> r.0.value.body[j] == Answer(Saved(env, links, j)))
            && r.1 == SavedUpTo(env, links, |links|)
  {
    ImportAllClean(env, links, f, stop);
  }

  /** No write fails before position n. */
  predicate CleanBefore(f: Failures, n: nat) {
    forall p :: 0 <= p < n ==> p !in f.insert && p !in f.tags
  }

  lemma {:induction false} InsertFromStops(env: ImportEnv, links: seq<DbLink>, f: Failures,
                                           k: nat, st: LoopState, m: nat)
    requires k <= |links| && |st.body| == |links|
    requires m <= k && st.inserted == SavedUpTo(env, links, m)
    requires !st.ended ==> m == k && CleanBefore(f, k)
    requires st.ended ==> m == 0 || CleanBefore(f, m - 1)
    ensures exists n: nat :: n <= |links|
              && InsertFrom(env, links, f, true, k, st).inserted == SavedUpTo(env, links, n)
              && (n == 0 || CleanBefore(f, n - 1))
    decreases |links| - k
  {
    if k == |links| || st.ended {
      assert InsertFrom(env, links, f, true, k, st) == st;
      assert m <= |links|;
    } else {
      var next := InsertStep(env, links, f, true, k, st);
      if links[k].url.Some? && k !in f.insert {
        assert SavedUpTo(env, links, k) + [Saved(env, links, k)] == SavedUpTo(env, links, k + 1);
        assert next.inserted == SavedUpTo(env, links, k + 1);
        InsertFromStops(env, links, f, k + 1, next, k + 1);
      } else {
        InsertFromStops(env, links, f, k + 1, next, k);
      }
    }
  }

  /** Returning at a failed insert, the links written are the saved links
      up to some position, and no write failed before the last one of
      them: nothing is written past the first failure. */
  lemma ImportStopsAtFailure(env: ImportEnv, links: seq<DbLink>, f: Failures)
    ensures exists n: nat :: n <= |links|
              && InsertAll(env, links, f, true).inserted == SavedUpTo(env, links, n)
              && (n == 0 || CleanBefore(f, n - 1))
  {
    InsertFromStops(env, links, f, 0, LoopState(StatusOK, seq(|links|, _ => Blank), [], false, false), 0);
  }

  /** As written, a failed insert at position 0 answers 500, yet the link
      at position 1 is still written, and the answer array still carries
      an entry for the failed link. */
  lemma ImportContinuesAfterFailedInsert(env: ImportEnv, u: Url)
    ensures var links := [DbLink(0, "a", "", 0, Some(u), Some([]), 1), DbLink(0, "b", "", 0, Some(u), Some([]), 1)];
            var r := InsertAll(env, links, Failures({0}, {}), false);
            && Reply(r) == Some(Status(StatusInternalServerError))
            && r.inserted == [Saved(env, links, 1)]
            && r.body[0] == Answer(links[0].(timestamp := env.now))
    ensures var links := [DbLink(0, "a", "", 0, Some(u), Some([]), 1), DbLink(0, "b", "", 0, Some(u), Some([]), 1)];
            InsertAll(env, links, Failures({0}, {}), true).inserted == []
  {
    var links := [DbLink(0, "a", "", 0, Some(u), Some([]), 1), DbLink(0, "b", "", 0, Some(u), Some([]), 1)];
    var f := Failures({0}, {});
    var st0 := LoopState(StatusOK, seq(|links|, _ => Blank), [], false, false);
    var st1 := InsertStep(env, links, f, false, 0, st0);
    assert st1.status == StatusInternalServerError && st1.inserted == [] && !st1.ended;
    assert st1.body[0] == Answer(links[0].(timestamp := env.now));
    var st2 := InsertStep(env, links, f, false, 1, st1);
    assert st2.inserted == [Saved(env, links, 1)] && st2.status == StatusInternalServerError;
    assert st2.body[0] == st1.body[0];
    assert InsertFrom(env, links, f, false, 1, st1) == InsertFrom(env, links, f, false, 2, st2) == st2;
    var st1' := InsertStep(env, links, f, true, 0, st0);
    assert st1'.ended && st1'.inserted == [];
    assert InsertFrom(env, links, f, true, 0, st0) == InsertFrom(env, links, f, true, 1, st1') == st1';
  }
}
