/** The metadata scraper of api/webreader.go. The HTML tokenizer is not
    modelled: `findMetadata` reads an abstract token stream, and the end of
    the sequence behaves like the tokenizer's sticky error token. HTML
    unescaping is a parameter. */
module WebReader {
  import opened Text

  datatype TokenKind =
    | ErrorToken | TextToken | StartTagToken | EndTagToken | SelfClosingTagToken
    | CommentToken | DoctypeToken

  datatype Attr = Attr(key: string, val: string)

  /** A token as `Tokenizer.Token()` returns it: `data` is the tag name for
      tags, the text for text, comment and doctype tokens, and empty for
      the error token. */
  datatype Token = Token(kind: TokenKind, data: string, attrs: seq<Attr>)

  /** A fetched page: the raw body and the tokens the tokenizer yields. */
  datatype Page = Page(body: string, tokens: seq<Token>)

  predicate IsTag(t: Token) {
    t.kind == StartTagToken || t.kind == EndTagToken || t.kind == SelfClosingTagToken
  }

  /** `cleanStr`: trimmed of Go whitespace, then lower-cased. */
  function CleanStr(s: string): (r: string)
    ensures |r| <= |s|
    ensures IsTrimmed(r, IsGoSpace)
  {
    var t := Trim(s, IsGoSpace);
    TrimIsTrimmed(s, IsGoSpace);
    LowerKeepsTrimmed(t);
    ToLower(t)
  }

  /** Lower-casing turns no character into Go whitespace, so a trimmed
      string stays trimmed. */
  lemma LowerKeepsTrimmed(t: string)
    requires IsTrimmed(t, IsGoSpace)
    ensures IsTrimmed(ToLower(t), IsGoSpace)
  {
    var r := ToLower(t);
    if |t| > 0 {
      assert r[0] == LowerChar(t[0]);
      assert r[|r| - 1] == LowerChar(t[|t| - 1]);
      assert !IsGoSpace(LowerChar(t[0])) by {
        if 'A' <= t[0] <= 'Z' { assert 'a' <= LowerChar(t[0]) <= 'z'; }
        else if t[0] == DottedCapitalI || t[0] == KelvinSign { assert LowerChar(t[0]) in "ik"; }
      }
      assert !IsGoSpace(LowerChar(t[|t| - 1])) by {
        if 'A' <= t[|t| - 1] <= 'Z' { assert 'a' <= LowerChar(t[|t| - 1]) <= 'z'; }
        else if t[|t| - 1] == DottedCapitalI || t[|t| - 1] == KelvinSign { assert LowerChar(t[|t| - 1]) in "ik"; }
      }
    }
  }

  /** A property spelled with the dotted capital I still names the title,
      since Go lower-cases that character to "i". */
  lemma DottedCapitalIPropertyIsTitle(s: string)
    requires s == "og:t" + [DottedCapitalI] + "tle"
    ensures CleanStr(s) == "og:title"
  {
    assert IsTrimmed(s, IsGoSpace) by {
      assert s[0] == 'o' && s[|s| - 1] == 'e';
    }
    TrimOfTrimmed(s, IsGoSpace);
    var l := ToLower(s);
    assert l[4] == 'i';
    assert l == "og:title";
  }

  lemma CleanStrIdempotent(s: string)
    ensures CleanStr(CleanStr(s)) == CleanStr(s)
  {
    var t := Trim(s, IsGoSpace);
    var c := CleanStr(s);
    assert c == ToLower(t);
    TrimOfTrimmed(c, IsGoSpace);
    assert CleanStr(c) == ToLower(c);
    ToLowerIdempotent(t);
  }

  /** The last "property"/"name" value and the last "content" value among
      the attributes, keys compared after `cleanStr`. */
  function MetaFields(attrs: seq<Attr>, property: string, content: string): (string, string)
    decreases |attrs|
  {
    if |attrs| == 0 then (property, content)
    else
      var key := CleanStr(attrs[0].key);
      var p := if key == "property" || key == "name" then attrs[0].val else property;
      var c := if key == "content" then attrs[0].val else content;
      MetaFields(attrs[1..], p, c)
  }

  /** The property of a two-attribute meta tag, after `cleanStr`. */
  function MetaProperty(t: Token): string {
    CleanStr(MetaFields(t.attrs, "", "").0)
  }

  /** A meta tag that `findMetadata` acts on: exactly two attributes. */
  predicate IsMeta(t: Token) {
    IsTag(t) && t.data == "meta" && |t.attrs| == 2
  }

  predicate IsOgTitle(t: Token) { IsMeta(t) && MetaProperty(t) == "og:title" }

  predicate IsOgDescription(t: Token) { IsMeta(t) && MetaProperty(t) == "og:description" }

  datatype MetaKind = OgTitle | OgDescription | PlainDescription | OtherMeta

  function KindOf(t: Token): (k: MetaKind)
    ensures k == OgTitle <==> MetaProperty(t) == "og:title"
    ensures k == OgDescription <==> MetaProperty(t) == "og:description"
  {
    var p := MetaProperty(t);
    if p == "og:title" then OgTitle
    else if p == "og:description" then OgDescription
    else if p == "description" then PlainDescription
    else OtherMeta
  }

  /** What one meta tag does to the (title, description) pair. */
  function ApplyMeta(t: Token, title: string, desc: string, unescape: string -> string): (string, string)
    requires IsMeta(t)
  {
    var content := MetaFields(t.attrs, "", "").1;
    match KindOf(t)
    case OgTitle => (content, desc)
    case OgDescription => (title, unescape(content))
    case PlainDescription => (title, if |desc| == 0 then unescape(content) else desc)
    case OtherMeta => (title, desc)
  }

  /** One turn of the `findMetadata` loop. */
  datatype Step = Stop | Continue(next: nat, title: string, desc: string)

  /** The turn of the loop at token `i`, with the title and description
      found so far. A `<title>` start tag consumes the next token; with
      `textOnly` false (the code as written) that token's data fills an
      empty title whatever its kind, with `textOnly` true only a text token
      does. */
  function StepAt(ts: seq<Token>, i: nat, title: string, desc: string,
                  unescape: string -> string, textOnly: bool): (s: Step)
    ensures s.Continue? ==> i < s.next <= |ts|
  {
    if i >= |ts| || ts[i].kind == ErrorToken then Stop
    else if IsMeta(ts[i]) then
      var m := ApplyMeta(ts[i], title, desc, unescape);
      Continue(i + 1, m.0, m.1)
    else if IsTag(ts[i]) && ts[i].data == "title" && ts[i].kind == StartTagToken then
      if i + 1 >= |ts| || ts[i + 1].kind == ErrorToken then Stop
      else
        var fill := |title| == 0 && (!textOnly || ts[i + 1].kind == TextToken);
        Continue(i + 2, if fill then ts[i + 1].data else title, desc)
    else Continue(i + 1, title, desc)
  }

  /** The `findMetadata` loop from token `i` on. */
  function Scan(ts: seq<Token>, i: nat, title: string, desc: string,
                unescape: string -> string, textOnly: bool): (string, string)
    decreases |ts| - i
  {
    match StepAt(ts, i, title, desc, unescape, textOnly)
    case Stop => (title, desc)
    case Continue(n, t, d) => Scan(ts, n, t, d, unescape, textOnly)
  }

  /** `findMetadata` as written. */
  function FindMetadataAsWritten(ts: seq<Token>, unescape: string -> string): (string, string) {
    Scan(ts, 0, "", "", unescape, false)
  }

  /** `findMetadata` with the `<title>` rule taking only a text token. */
  function FindMetadata(ts: seq<Token>, unescape: string -> string): (string, string) {
    Scan(ts, 0, "", "", unescape, true)
  }

  const UnreachableTitle := "Unreachable website"
  const UnreachableDescription := "The lindeb crawler could not reach this URL."

  /** `scrapeLink`: the title and description a link gets from its page. */
  function ScrapeLink(urlText: string, page: Page, unescape: string -> string): (r: (string, string))
    ensures |page.body| == 0 ==> r == (UnreachableTitle, UnreachableDescription)
    ensures |page.body| > 0 ==>
              r.1 == FindMetadata(page.tokens, unescape).1
              && r.0 == (if |FindMetadata(page.tokens, unescape).0| == 0 then urlText
                         else FindMetadata(page.tokens, unescape).0)
    ensures |page.body| > 0 && |urlText| > 0 ==> |r.0| > 0
  {
    if |page.body| == 0 then (UnreachableTitle, UnreachableDescription)
    else
      var m := FindMetadata(page.tokens, unescape);
      (if |m.0| == 0 then urlText else m.0, m.1)
  }

  // ---------------------------------------------------------------------
  // Properties of the scan
  // ---------------------------------------------------------------------

  /** A step reads at most the token it starts on and the one after. */
  lemma StepReadsTwo(ts: seq<Token>, us: seq<Token>, i: nat, title: string, desc: string,
                     unescape: string -> string, textOnly: bool)
    requires i < |ts| && i < |us| && ts[i] == us[i]
    requires i + 1 < |ts| <==> i + 1 < |us|
    requires i + 1 < |ts| ==> ts[i + 1] == us[i + 1]
    ensures StepAt(ts, i, title, desc, unescape, textOnly) == StepAt(us, i, title, desc, unescape, textOnly)
  {
  }

  /** Scanning stops at the first error token: whatever follows it is
      never read. */
  lemma {:induction false} ErrorTokenEndsScan(ts: seq<Token>, e: Token, rest: seq<Token>, i: nat,
                                              title: string, desc: string,
                                              unescape: string -> string, textOnly: bool)
    requires e.kind == ErrorToken
    requires i <= |ts|
    ensures Scan(ts + [e] + rest, i, title, desc, unescape, textOnly)
         == Scan(ts, i, title, desc, unescape, textOnly)
    decreases |ts| - i
  {
    var all := ts + [e] + rest;
    var cut := ts + [e];
    if i < |ts| {
      assert all[i] == ts[i] && cut[i] == ts[i];
      if i + 1 < |ts| {
        assert all[i + 1] == ts[i + 1] && cut[i + 1] == ts[i + 1];
      } else {
        assert all[i + 1] == e && cut[i + 1] == e;
      }
      StepReadsTwo(all, cut, i, title, desc, unescape, textOnly);
      var s := StepAt(cut, i, title, desc, unescape, textOnly);
      var s' := StepAt(ts, i, title, desc, unescape, textOnly);
      // On `ts` itself the step differs only when it runs off the end,
      // where `cut` meets the error token instead; both stop.
      assert s.Continue? ==> s' == s;
      assert s.Stop? ==> s'.Stop?;
      if s.Continue? {
        ErrorTokenEndsScan(ts, e, rest, s.next, s.title, s.desc, unescape, textOnly);
      }
    } else {
      assert all[i] == e;
    }
  }

  /** A step keeps a non-empty title unless it meets an `og:title` tag. */
  lemma StepKeepsTitle(ts: seq<Token>, i: nat, title: string, desc: string,
                       unescape: string -> string, textOnly: bool)
    requires |title| > 0
    requires i < |ts| ==> !IsOgTitle(ts[i])
    ensures StepAt(ts, i, title, desc, unescape, textOnly).Continue? ==>
              StepAt(ts, i, title, desc, unescape, textOnly).title == title
  {
    if i < |ts| && ts[i].kind != ErrorToken && IsMeta(ts[i]) {
      assert KindOf(ts[i]) != OgTitle;
      assert ApplyMeta(ts[i], title, desc, unescape).0 == title;
    }
  }

  /** A step keeps a non-empty description unless it meets an
      `og:description` tag. */
  lemma StepKeepsDescription(ts: seq<Token>, i: nat, title: string, desc: string,
                             unescape: string -> string, textOnly: bool)
    requires |desc| > 0
    requires i < |ts| ==> !IsOgDescription(ts[i])
    ensures StepAt(ts, i, title, desc, unescape, textOnly).Continue? ==>
              StepAt(ts, i, title, desc, unescape, textOnly).desc == desc
  {
    if i < |ts| && ts[i].kind != ErrorToken && IsMeta(ts[i]) {
      assert KindOf(ts[i]) != OgDescription;
      assert ApplyMeta(ts[i], title, desc, unescape).1 == desc;
    }
  }

  /** Once the title is non-empty, only an `og:title` meta tag changes it. */
  lemma {:induction false} TitleStable(ts: seq<Token>, i: nat, title: string, desc: string,
                                       unescape: string -> string, textOnly: bool)
    requires |title| > 0
    requires forall k :: i <= k < |ts| ==> !IsOgTitle(ts[k])
    ensures Scan(ts, i, title, desc, unescape, textOnly).0 == title
    decreases |ts| - i
  {
    StepKeepsTitle(ts, i, title, desc, unescape, textOnly);
    var s := StepAt(ts, i, title, desc, unescape, textOnly);
    if s.Continue? {
      TitleStable(ts, s.next, s.title, s.desc, unescape, textOnly);
    }
  }

  /** Once the description is non-empty, only an `og:description` meta tag
      changes it: a plain `description` meta no longer fills it. */
  lemma {:induction false} DescriptionStable(ts: seq<Token>, i: nat, title: string, desc: string,
                                             unescape: string -> string, textOnly: bool)
    requires |desc| > 0
    requires forall k :: i <= k < |ts| ==> !IsOgDescription(ts[k])
    ensures Scan(ts, i, title, desc, unescape, textOnly).1 == desc
    decreases |ts| - i
  {
    StepKeepsDescription(ts, i, title, desc, unescape, textOnly);
    var s := StepAt(ts, i, title, desc, unescape, textOnly);
    if s.Continue? {
      DescriptionStable(ts, s.next, s.title, s.desc, unescape, textOnly);
    }
  }

  /** An `og:title` meta tag sets the title whatever it was before, and
      when it is the last one the scan meets and its content is non-empty,
      that content is the final title. */
  lemma OgTitleWins(ts: seq<Token>, i: nat, title: string, desc: string,
                    unescape: string -> string, textOnly: bool)
    requires i < |ts| && IsOgTitle(ts[i])
    requires |MetaFields(ts[i].attrs, "", "").1| > 0
    requires forall k :: i < k < |ts| ==> !IsOgTitle(ts[k])
    ensures Scan(ts, i, title, desc, unescape, textOnly).0 == MetaFields(ts[i].attrs, "", "").1
  {
    var s := StepAt(ts, i, title, desc, unescape, textOnly);
    assert s == Continue(i + 1, MetaFields(ts[i].attrs, "", "").1, desc);
    TitleStable(ts, i + 1, s.title, s.desc, unescape, textOnly);
  }

  /** A plain `description` meta tag fills only an empty description, and
      an `og:description` one overwrites it with the unescaped content. */
  lemma DescriptionMetaRules(ts: seq<Token>, i: nat, title: string, desc: string,
                             unescape: string -> string, textOnly: bool)
    requires i < |ts| && IsMeta(ts[i])
    ensures KindOf(ts[i]) == PlainDescription && |desc| > 0 ==>
              Scan(ts, i, title, desc, unescape, textOnly) == Scan(ts, i + 1, title, desc, unescape, textOnly)
    ensures KindOf(ts[i]) == PlainDescription && |desc| == 0 ==>
              Scan(ts, i, title, desc, unescape, textOnly)
              == Scan(ts, i + 1, title, unescape(MetaFields(ts[i].attrs, "", "").1), unescape, textOnly)
    ensures KindOf(ts[i]) == OgDescription ==>
              Scan(ts, i, title, desc, unescape, textOnly)
              == Scan(ts, i + 1, title, unescape(MetaFields(ts[i].attrs, "", "").1), unescape, textOnly)
  {
    MetaStep(ts, i, title, desc, unescape, textOnly);
    var m := ApplyMeta(ts[i], title, desc, unescape);
    var content := MetaFields(ts[i].attrs, "", "").1;
    match KindOf(ts[i])
    case PlainDescription =>
      assert m == (title, if |desc| == 0 then unescape(content) else desc);
    case OgDescription =>
      assert m == (title, unescape(content));
    case _ =>
  }

  /** The scan passes a meta tag by applying it. */
  lemma MetaStep(ts: seq<Token>, i: nat, title: string, desc: string,
                 unescape: string -> string, textOnly: bool)
    requires i < |ts| && IsMeta(ts[i])
    ensures var m := ApplyMeta(ts[i], title, desc, unescape);
            Scan(ts, i, title, desc, unescape, textOnly) == Scan(ts, i + 1, m.0, m.1, unescape, textOnly)
  {
    var m := ApplyMeta(ts[i], title, desc, unescape);
    assert StepAt(ts, i, title, desc, unescape, textOnly) == Continue(i + 1, m.0, m.1);
  }

  /** Where a title can come from once the `<title>` rule takes only text
      tokens: nowhere (empty), a text token, or an `og:title` content. */
  ghost predicate TitleFromSource(ts: seq<Token>, t: string) {
    |t| == 0
    || (exists k :: 0 <= k < |ts| && ts[k].kind == TextToken && ts[k].data == t)
    || (exists k :: 0 <= k < |ts| && IsOgTitle(ts[k]) && MetaFields(ts[k].attrs, "", "").1 == t)
  }

  /** A meta tag gives the title a source: its own `og:title` content, or
      the title it had. */
  lemma MetaKeepsSource(ts: seq<Token>, i: nat, title: string, desc: string, unescape: string -> string)
    requires i < |ts| && IsMeta(ts[i])
    requires TitleFromSource(ts, title)
    ensures TitleFromSource(ts, ApplyMeta(ts[i], title, desc, unescape).0)
  {
    if KindOf(ts[i]) == OgTitle {
      assert IsOgTitle(ts[i]);
      assert ApplyMeta(ts[i], title, desc, unescape).0 == MetaFields(ts[i].attrs, "", "").1;
    } else {
      assert ApplyMeta(ts[i], title, desc, unescape).0 == title;
    }
  }

  lemma StepKeepsSource(ts: seq<Token>, i: nat, title: string, desc: string, unescape: string -> string)
    requires TitleFromSource(ts, title)
    ensures StepAt(ts, i, title, desc, unescape, true).Continue? ==>
              TitleFromSource(ts, StepAt(ts, i, title, desc, unescape, true).title)
  {
    var s := StepAt(ts, i, title, desc, unescape, true);
    if s.Continue? {
      if IsMeta(ts[i]) {
        MetaKeepsSource(ts, i, title, desc, unescape);
      } else if IsTag(ts[i]) && ts[i].data == "title" && ts[i].kind == StartTagToken {
        if s.title != title {
          assert ts[i + 1].kind == TextToken && s.title == ts[i + 1].data;
        }
      }
    }
  }

  lemma {:induction false} TitleSourceKept(ts: seq<Token>, i: nat, title: string, desc: string,
                                           unescape: string -> string)
    requires TitleFromSource(ts, title)
    ensures TitleFromSource(ts, Scan(ts, i, title, desc, unescape, true).0)
    decreases |ts| - i
  {
    StepKeepsSource(ts, i, title, desc, unescape);
    var s := StepAt(ts, i, title, desc, unescape, true);
    if s.Continue? {
      TitleSourceKept(ts, s.next, s.title, s.desc, unescape);
    }
  }

  /** With the `<title>` rule restricted to text, the scraped title is
      empty, the text of a text token, or an `og:title` content; an empty
      `<title></title>` no longer turns into the tag name. */
  lemma CorrectedTitleComesFromText(ts: seq<Token>, unescape: string -> string)
    ensures TitleFromSource(ts, FindMetadata(ts, unescape).0)
    ensures FindMetadata([Token(StartTagToken, "title", []), Token(EndTagToken, "title", [])], unescape).0 == ""
  {
    TitleSourceKept(ts, 0, "", "", unescape);
    EmptyTitleElementCorrected(unescape);
  }

  lemma EmptyTitleElementCorrected(unescape: string -> string)
    ensures FindMetadata([Token(StartTagToken, "title", []), Token(EndTagToken, "title", [])], unescape).0 == ""
  {
    var ts := [Token(StartTagToken, "title", []), Token(EndTagToken, "title", [])];
    assert !IsMeta(ts[0]) && IsTag(ts[0]) && ts[0].data == "title";
    assert StepAt(ts, 0, "", "", unescape, true) == Continue(2, "", "");
    assert StepAt(ts, 2, "", "", unescape, true) == Stop;
  }

  /** As written, an empty `<title></title>` element makes the next token,
      the end tag, supply the title: the page's title becomes "title",
      which no token of the page carries as text. */
  lemma EmptyTitleElementAsWritten(unescape: string -> string)
    ensures FindMetadataAsWritten([Token(StartTagToken, "title", []), Token(EndTagToken, "title", [])], unescape)
         == ("title", "")
    ensures !TitleFromSource([Token(StartTagToken, "title", []), Token(EndTagToken, "title", [])], "title")
  {
  }
}
