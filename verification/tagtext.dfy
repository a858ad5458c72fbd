/** Tags typed as comma-separated text: the older link view
    (frontend/src/components/link.js), the older add view
    (frontend/src/components/addlink.js) and the browser extension's popup
    (firefox/save.js) all parse the text by splitting it on commas,
    trimming every piece and dropping the empty ones; the link view shows
    tags joined by ", " for editing. */
module TagText {
  import opened Wrappers
  import opened Text

  /** A tag as parsing produces it: non-empty, without a comma, and with
      no whitespace at either end. */
  predicate WellFormedTag(t: string) {
    |t| > 0 && ',' !in t && IsTrimmed(t, IsJsSpace)
  }

  predicate WellFormed(tags: seq<string>) {
    forall k :: 0 <= k < |tags| ==> WellFormedTag(tags[k])
  }

  /** `pieces.map(tag => tag.trim())`. */
  function TrimAll(pieces: seq<string>): (ts: seq<string>)
    ensures |ts| == |pieces|
    ensures forall k :: 0 <= k < |ts| ==> ts[k] == Trim(pieces[k], IsJsSpace)
  {
    seq(|pieces|, k requires 0 <= k < |pieces| => Trim(pieces[k], IsJsSpace))
  }

  /** `ts.filter(tag => !!tag)`: the non-empty strings, in order. */
  function NonEmpty(ts: seq<string>): (r: seq<string>)
    ensures |r| <= |ts|
    ensures forall k :: 0 <= k < |r| ==> |r[k]| > 0 && r[k] in ts
  {
    if |ts| == 0 then [] else (if |ts[0]| == 0 then [] else [ts[0]]) + NonEmpty(ts[1..])
  }

  /** `pieces.map(tag => tag.trim()).filter(tag => !!tag)`. */
  function Clean(pieces: seq<string>): seq<string> {
    NonEmpty(TrimAll(pieces))
  }

  /** Pieces without a comma clean to well-formed tags. */
  lemma CleanWellFormed(pieces: seq<string>)
    requires forall i :: 0 <= i < |pieces| ==> ',' !in pieces[i]
    ensures WellFormed(Clean(pieces))
  {
    var ts := TrimAll(pieces);
    forall k | 0 <= k < |Clean(pieces)|
      ensures WellFormedTag(Clean(pieces)[k])
    {
      var i :| 0 <= i < |ts| && ts[i] == Clean(pieces)[k];
      TrimIsTrimmed(pieces[i], IsJsSpace);
      TrimKeepsOut(pieces[i], ',');
    }
  }

  /** Trimming takes a run out of the middle of the string, so it adds no
      character the string did not have. */
  lemma TrimKeepsOut(s: string, c: char)
    ensures c !in s ==> c !in Trim(s, IsJsSpace)
  {
  }

  lemma {:induction false} NonEmptyAppend(a: seq<string>, b: seq<string>)
    ensures NonEmpty(a + b) == NonEmpty(a) + NonEmpty(b)
    decreases |a|
  {
    if |a| == 0 {
      assert a + b == b;
    } else {
      assert (a + b)[0] == a[0];
      assert (a + b)[1..] == a[1..] + b;
      NonEmptyAppend(a[1..], b);
    }
  }

  lemma TrimAllAppend(a: seq<string>, b: seq<string>)
    ensures TrimAll(a + b) == TrimAll(a) + TrimAll(b)
  {
    var l := TrimAll(a + b);
    var r := TrimAll(a) + TrimAll(b);
    forall k | 0 <= k < |l|
      ensures l[k] == r[k]
    {
      if k < |a| {
        assert (a + b)[k] == a[k] && r[k] == TrimAll(a)[k];
      } else {
        assert (a + b)[k] == b[k - |a|] && r[k] == TrimAll(b)[k - |a|];
      }
    }
  }

  lemma CleanAppend(a: seq<string>, b: seq<string>)
    ensures Clean(a + b) == Clean(a) + Clean(b)
  {
    TrimAllAppend(a, b);
    NonEmptyAppend(TrimAll(a), TrimAll(b));
  }

  /** The parse of the tag text: well-formed tags, at most one more than
      there are commas. */
  function ParseTags(s: string): (tags: seq<string>)
    ensures WellFormed(tags)
    ensures |tags| <= Count(s, ',') + 1
  {
    CleanWellFormed(Split(s, ','));
    Clean(Split(s, ','))
  }

  /** `tags.join(", ")`, the text the link view edits. */
  function FormatTags(tags: seq<string>): string {
    Join(tags, ", ")
  }

  /** Parsing keeps the order of the text: the tags of text with a comma in
      it are the tags before the comma followed by those after it. */
  lemma ParseAppend(a: string, b: string)
    ensures ParseTags(a + "," + b) == ParseTags(a) + ParseTags(b)
  {
    assert a + "," + b == a + [','] + b;
    SplitAppend(a, b, ',');
    CleanAppend(Split(a, ','), Split(b, ','));
  }

  // ---------------------------------------------------------------------
  // Empty parses
  // ---------------------------------------------------------------------

  /** Every character of the joined pieces is a separator or a character
      of some piece. */
  lemma {:induction false} JoinChars(pieces: seq<string>, sep: char, k: nat)
    requires k < |Join(pieces, [sep])|
    ensures Join(pieces, [sep])[k] == sep
            || exists i, j :: 0 <= i < |pieces| && 0 <= j < |pieces[i]| && pieces[i][j] == Join(pieces, [sep])[k]
    decreases |pieces|
  {
    if |pieces| == 1 {
      assert pieces[0][k] == Join(pieces, [sep])[k];
    } else if |pieces| > 1 {
      var s := Join(pieces, [sep]);
      var rest := Join(pieces[1..], [sep]);
      assert s == pieces[0] + [sep] + rest;
      if k < |pieces[0]| {
        assert pieces[0][k] == s[k];
      } else if k > |pieces[0]| {
        var k' := k - |pieces[0]| - 1;
        assert s[k] == rest[k'];
        JoinChars(pieces[1..], sep, k');
        if rest[k'] != sep {
          var i, j :| 0 <= i < |pieces[1..]| && 0 <= j < |pieces[1..][i]| && pieces[1..][i][j] == rest[k'];
          assert pieces[i + 1][j] == s[k];
        }
      }
    }
  }

  /** The pieces all clean away exactly when each is blank. */
  lemma {:induction false} NonEmptyNone(ts: seq<string>)
    ensures NonEmpty(ts) == [] <==> forall k :: 0 <= k < |ts| ==> ts[k] == ""
    decreases |ts|
  {
    if |ts| > 0 {
      NonEmptyNone(ts[1..]);
      if NonEmpty(ts) == [] {
        forall k | 0 < k < |ts|
          ensures ts[k] == ""
        {
          assert ts[k] == ts[1..][k - 1];
        }
      }
    }
  }

  lemma CleanEmpty(pieces: seq<string>)
    ensures Clean(pieces) == [] <==>
            forall i, j :: 0 <= i < |pieces| && 0 <= j < |pieces[i]| ==> IsJsSpace(pieces[i][j])
  {
    NonEmptyNone(TrimAll(pieces));
    forall i | 0 <= i < |pieces|
      ensures Trim(pieces[i], IsJsSpace) == "" <==> forall j :: 0 <= j < |pieces[i]| ==> IsJsSpace(pieces[i][j])
    {
      TrimEmpty(pieces[i], IsJsSpace);
    }
  }

  /** The text parses to no tags exactly when it holds nothing but commas
      and whitespace (the empty text included). */
  lemma ParseEmpty(s: string)
    ensures ParseTags(s) == [] <==> forall k :: 0 <= k < |s| ==> s[k] == ',' || IsJsSpace(s[k])
  {
    var pieces := Split(s, ',');
    CleanEmpty(pieces);
    JoinSplit(s, ',');
    if ParseTags(s) == [] {
      forall k | 0 <= k < |s|
        ensures s[k] == ',' || IsJsSpace(s[k])
      {
        JoinChars(pieces, ',', k);
      }
    } else {
      var i, j :| 0 <= i < |pieces| && 0 <= j < |pieces[i]| && !IsJsSpace(pieces[i][j]);
      assert pieces[i][j] != ',';
      PieceCharInText(s, ',', i, j);
    }
  }

  /** Every character of a piece is a character of the text. */
  lemma {:induction false} PieceCharInText(s: string, sep: char, i: nat, j: nat)
    requires i < |Split(s, sep)| && j < |Split(s, sep)[i]|
    ensures exists k :: 0 <= k < |s| && s[k] == Split(s, sep)[i][j]
    decreases |s|
  {
    assert |s| > 0;
    var rest := Split(s[1..], sep);
    if s[0] == sep {
      assert Split(s, sep)[i] == rest[i - 1];
      PieceCharInText(s[1..], sep, i - 1, j);
      var k :| 0 <= k < |s[1..]| && s[1..][k] == rest[i - 1][j];
      assert s[k + 1] == s[1..][k];
    } else if i == 0 && j == 0 {
      assert s[0] == Split(s, sep)[0][0];
    } else {
      var i' := i;
      var j' := if i == 0 then j - 1 else j;
      assert Split(s, sep)[i][j] == rest[i'][j'];
      PieceCharInText(s[1..], sep, i', j');
      var k :| 0 <= k < |s[1..]| && s[1..][k] == rest[i'][j'];
      assert s[k + 1] == s[1..][k];
    }
  }

  // ---------------------------------------------------------------------
  // Round trip
  // ---------------------------------------------------------------------

  /** Blanks followed by one well-formed tag parse to that tag. */
  lemma OneTag(w: string, t: string)
    requires forall k :: 0 <= k < |w| ==> IsJsSpace(w[k])
    requires WellFormedTag(t)
    ensures ParseTags(w + t) == [t]
  {
    SplitNoSep(w + t, ',');
    TrimSpacesThen(w, t, IsJsSpace);
    assert Clean([w + t]) == [t];
  }

  /** Blanks in front of well-formed tags joined by ", " parse back to
      those tags. */
  lemma {:induction false} ParseJoined(w: string, tags: seq<string>)
    requires forall k :: 0 <= k < |w| ==> IsJsSpace(w[k])
    requires |tags| > 0 && WellFormed(tags)
    ensures ParseTags(w + FormatTags(tags)) == tags
    decreases |tags|
  {
    var t := tags[0];
    assert WellFormedTag(t);
    OneTag(w, t);
    if |tags| == 1 {
      FormatSingle(tags);
    } else {
      var more := tags[1..];
      FormatFirst(tags);
      assert WellFormed(more);
      ParseJoined(" ", more);
      ParseConsStep(w, t, FormatTags(more), more);
      assert [t] + more == tags;
    }
  }

  lemma FormatSingle(tags: seq<string>)
    requires |tags| == 1
    ensures FormatTags(tags) == tags[0]
  {
  }

  lemma FormatFirst(tags: seq<string>)
    requires |tags| > 1
    ensures FormatTags(tags) == tags[0] + "," + (" " + FormatTags(tags[1..]))
  {
    FormatCons(tags[0], tags[1..]);
    assert [tags[0]] + tags[1..] == tags;
  }

  /** A first tag that parses alone, then a comma and text that parses to
      the rest, parse to the first tag followed by the rest. */
  lemma ParseConsStep(w: string, t: string, rest: string, more: seq<string>)
    requires ParseTags(w + t) == [t]
    requires ParseTags(" " + rest) == more
    ensures ParseTags(w + (t + "," + (" " + rest))) == [t] + more
  {
    CommaRegroup(w, t, " " + rest);
    ParseAppend(w + t, " " + rest);
  }

  lemma CommaRegroup(w: string, t: string, r: string)
    ensures w + (t + "," + r) == (w + t) + "," + r
  {
  }

  /** Well-formed tags survive being shown for editing and parsed back. */
  lemma FormatThenParse(tags: seq<string>)
    requires WellFormed(tags)
    ensures ParseTags(FormatTags(tags)) == tags
  {
    if |tags| == 0 {
      assert FormatTags(tags) == "";
      assert Split("", ',') == [""];
    } else {
      ParseJoined("", tags);
      assert "" + FormatTags(tags) == FormatTags(tags);
    }
  }

  /** Parsing, showing and parsing again gives the first parse. */
  lemma ParseIdempotent(s: string)
    ensures ParseTags(FormatTags(ParseTags(s))) == ParseTags(s)
  {
    FormatThenParse(ParseTags(s));
  }

  // ---------------------------------------------------------------------
  // The forms that send parsed tags
  // ---------------------------------------------------------------------

  /** The fields of a link that the server reads from a save or edit
      request, with the tags as sent. */
  datatype LinkRequest = LinkRequest(id: int, url: string, title: string, description: string, tags: seq<string>)

  /** The older link view's editing state: the link's fields with the tags
      as text, and whether it is in editing mode. */
  datatype LinkForm = LinkForm(id: int, url: string, title: string, description: string, tags: string, editing: bool)

  /** `edit` of the older link view: editing mode, with the tags joined by
      ", ". */
  function EditLinkForm(id: int, url: string, title: string, description: string, tags: seq<string>): (f: LinkForm)
    ensures f.editing && f.tags == FormatTags(tags)
  {
    LinkForm(id, url, title, description, FormatTags(tags), true)
  }

  /** `saveEdit` of the older link view: editing mode ends and the request
      carries the parsed tags (the editing flag and the page HTML are not
      sent). */
  function SaveLinkForm(f: LinkForm): (r: (LinkForm, LinkRequest))
    ensures !r.0.editing
    ensures r.1.tags == ParseTags(f.tags) && WellFormed(r.1.tags)
    ensures r.1.id == f.id && r.1.url == f.url && r.1.title == f.title && r.1.description == f.description
  {
    (f.(editing := false), LinkRequest(f.id, f.url, f.title, f.description, ParseTags(f.tags)))
  }

  /** Opening a link for editing and saving it unchanged sends its tags
      back as they were, when they are well-formed. */
  lemma EditUnchangedKeepsTags(id: int, url: string, title: string, description: string, tags: seq<string>)
    requires WellFormed(tags)
    ensures SaveLinkForm(EditLinkForm(id, url, title, description, tags)).1.tags == tags
  {
    FormatThenParse(tags);
  }

  /** An empty tag between two others (a Pinboard import of "a  b" gives
      one) is dropped when the older link view saves the link unchanged. */
  lemma EditDropsEmptyTag(a: string, b: string)
    requires WellFormedTag(a) && WellFormedTag(b)
    ensures SaveLinkForm(EditLinkForm(1, "u", "t", "d", [a, "", b])).1.tags == [a, b]
  {
    EmptyTagDropped(a, b);
  }

  lemma EmptyTagDropped(a: string, b: string)
    requires WellFormedTag(a) && WellFormedTag(b)
    ensures ParseTags(FormatTags([a, "", b])) == [a, b]
  {
    ParseMiddleEmpty(a, b);
    OneTagAlone(a);
    TailAfterEmpty(b);
    assert [a] + [b] == [a, b];
  }

  lemma ParseMiddleEmpty(a: string, b: string)
    ensures ParseTags(FormatTags([a, "", b])) == ParseTags(a) + ParseTags(" " + ("" + "," + (" " + b)))
  {
    FormatMiddleEmpty(a, b);
    ParseAt(FormatTags([a, "", b]), a, " " + ("" + "," + (" " + b)));
  }

  /** Text that is `a`, a comma and `z` parses as `a` and `z` do. */
  lemma ParseAt(s: string, a: string, z: string)
    requires s == a + "," + z
    ensures ParseTags(s) == ParseTags(a) + ParseTags(z)
  {
    ParseAppend(a, z);
  }

  lemma TailAfterEmpty(b: string)
    requires WellFormedTag(b)
    ensures ParseTags(" " + ("" + "," + (" " + b))) == [b]
  {
    BlankThenComma(" " + b);
    SpaceThenTag(b);
  }

  lemma SpaceThenTag(b: string)
    requires WellFormedTag(b)
    ensures ParseTags(" " + b) == [b]
  {
    assert IsJsSpace(" "[0]);
    OneTag(" ", b);
  }

  lemma FormatMiddleEmpty(a: string, b: string)
    ensures FormatTags([a, "", b]) == a + "," + (" " + ("" + "," + (" " + b)))
  {
    FormatCons("", [b]);
    assert [""] + [b] == ["", b];
    assert FormatTags([b]) == b;
    FormatCons(a, ["", b]);
    assert [a] + ["", b] == [a, "", b];
  }

  lemma OneTagAlone(t: string)
    requires WellFormedTag(t)
    ensures ParseTags(t) == [t]
  {
    OneTag("", t);
    assert "" + t == t;
  }

  lemma BlankThenComma(x: string)
    ensures ParseTags(" " + ("" + "," + x)) == ParseTags(x)
  {
    var sp := " ";
    assert sp + ("" + "," + x) == sp + "," + x;
    ParseAppend(sp, x);
    assert |sp| == 1 && IsJsSpace(sp[0]);
    ParseEmpty(sp);
    assert ParseTags(sp) == [];
    assert [] + ParseTags(x) == ParseTags(x);
  }

  /** A tag in front of others is joined to them by a comma and a blank. */
  lemma FormatCons(t: string, rest: seq<string>)
    requires |rest| > 0
    ensures FormatTags([t] + rest) == t + "," + (" " + FormatTags(rest))
  {
    assert ([t] + rest)[1..] == rest;
    assert ", " == [','] + [' '];
  }

  /** `save` of the older add view: the form's fields with the parsed tags. */
  function SaveAddForm(url: string, title: string, description: string, tags: string): (r: LinkRequest)
    ensures r.tags == ParseTags(tags) && WellFormed(r.tags)
    ensures r.url == url && r.title == title && r.description == description
  {
    LinkRequest(0, url, title, description, ParseTags(tags))
  }

  /** The extension popup's request body: exactly title, tags, url and
      description, with the header stored at login sent as is. */
  datatype PopupRequest = PopupRequest(authorization: string, title: string, tags: seq<string>, url: string, description: string)

  /** `save` of the popup. */
  function PopupSave(authHeader: string, title: string, tags: string, url: string, description: string): (r: PopupRequest)
    ensures r.authorization == authHeader
    ensures r.tags == ParseTags(tags) && WellFormed(r.tags) && |r.tags| <= Count(tags, ',') + 1
    ensures r.title == title && r.url == url && r.description == description
  {
    PopupRequest(authHeader, title, ParseTags(tags), url, description)
  }

  /** What the popup shows when it opens. */
  datatype Popup = SaveForm(authHeader: string) | NotLoggedIn

  /** `init`: the save form for a stored, non-empty header; the
      not-logged-in view when there is none or reading storage failed. */
  function InitPopup(stored: Result<Option<string>>): (p: Popup)
    ensures p.SaveForm? <==> stored.Ok? && stored.value.Some? && stored.value.value != ""
    ensures p.SaveForm? ==> p.authHeader == stored.value.value
  {
    match stored
    case Ok(Some(h)) => if h != "" then SaveForm(h) else NotLoggedIn
    case _ => NotLoggedIn
  }
}
