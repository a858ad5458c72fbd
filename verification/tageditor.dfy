/** The chip-based tag editors of the newer link view
    (frontend/src/components/link/full.js) and add view
    (frontend/src/components/link/add.js): the tags are a list of chips
    with distinct names, turned back into names when the link is sent. */
module TagEditor {
  import opened Wrappers
  import opened Records
  import TagText
  import Client

  /** A chip: a tag from the name cache, or a bare name (a tag the cache
      does not know, or one typed anew). */
  datatype Chip = Cached(tag: Tag) | Named(name: string) {
    function Name(): string {
      match this
      case Cached(t) => t.name
      case Named(n) => n
    }
  }

  /** `chips.map(tag => tag.name)`. */
  function Names(chips: seq<Chip>): (ns: seq<string>)
    ensures |ns| == |chips|
    ensures forall k :: 0 <= k < |chips| ==> ns[k] == chips[k].Name()
  {
    seq(|chips|, k requires 0 <= k < |chips| => chips[k].Name())
  }

  predicate DistinctNames(chips: seq<Chip>) {
    forall i, j :: 0 <= i < j < |chips| ==> chips[i].Name() != chips[j].Name()
  }

  /** `addTag` of both editors: a chip whose name is already in the list is
      ignored; any other goes at the end. */
  function AddChip(chips: seq<Chip>, c: Chip): (r: seq<Chip>)
    ensures (exists k :: 0 <= k < |chips| && chips[k].Name() == c.Name()) ==> r == chips
    ensures (forall k :: 0 <= k < |chips| ==> chips[k].Name() != c.Name()) ==> r == chips + [c]
  {
    if exists k :: 0 <= k < |chips| && chips[k].Name() == c.Name() then chips else chips + [c]
  }

  /** Adding keeps the names distinct, and afterwards the name is there. */
  lemma AddChipKeepsDistinct(chips: seq<Chip>, c: Chip)
    requires DistinctNames(chips)
    ensures DistinctNames(AddChip(chips, c))
    ensures exists k :: 0 <= k < |AddChip(chips, c)| && AddChip(chips, c)[k].Name() == c.Name()
  {
    var r := AddChip(chips, c);
    if r == chips + [c] {
      assert r[|chips|] == c;
    }
  }

  /** `$splice: [[i, 1]]`, with `Array.prototype.splice`'s start index: a
      negative index counts from the end (at least 0), one past the end
      removes nothing. */
  function SpliceOne<T>(s: seq<T>, i: int): (r: seq<T>)
    ensures 0 <= i < |s| ==> r == s[..i] + s[i + 1..]
    ensures i >= |s| ==> r == s
    ensures i < 0 && |s| + i >= 0 ==> r == s[..|s| + i] + s[|s| + i + 1..]
    ensures i < 0 && |s| + i < 0 && |s| > 0 ==> r == s[1..]
    ensures |r| == if |s| == 0 || i >= |s| then |s| else |s| - 1
  {
    var start := if i < 0 then (if |s| + i < 0 then 0 else |s| + i) else (if i > |s| then |s| else i);
    if start < |s| then s[..start] + s[start + 1..] else s
  }

  /** Dropping the chip at one index keeps the names distinct. */
  lemma RemoveAtKeepsDistinct(chips: seq<Chip>, start: nat)
    requires start < |chips| && DistinctNames(chips)
    ensures DistinctNames(chips[..start] + chips[start + 1..])
  {
    var r := chips[..start] + chips[start + 1..];
    forall a, b | 0 <= a < b < |r|
      ensures r[a].Name() != r[b].Name()
    {
      var a' := if a < start then a else a + 1;
      var b' := if b < start then b else b + 1;
      assert r[a] == chips[a'] && r[b] == chips[b'];
      assert a' < b';
    }
  }

  /** Removing a chip keeps the names distinct. */
  lemma DeleteChipKeepsDistinct(chips: seq<Chip>, i: int)
    requires DistinctNames(chips)
    ensures DistinctNames(SpliceOne(chips, i))
  {
    var r := SpliceOne(chips, i);
    if 0 <= i < |chips| {
      RemoveAtKeepsDistinct(chips, i);
    } else if i < 0 && |chips| + i >= 0 {
      RemoveAtKeepsDistinct(chips, |chips| + i);
    } else if i < 0 && |chips| > 0 {
      assert r == chips[1..];
      RemoveAtKeepsDistinct(chips, 0);
      assert chips[..0] + chips[1..] == r;
    } else {
      assert r == chips;
    }
  }

  /** The chips `edit` shows for a link's tag names: the cached tag of that
      name, or the bare name. */
  function ChipsOf(tags: seq<string>, byName: map<string, Tag>): (chips: seq<Chip>)
    ensures |chips| == |tags|
    ensures forall k :: 0 <= k < |tags| ==>
              chips[k] == if tags[k] in byName then Cached(byName[tags[k]]) else Named(tags[k])
  {
    seq(|tags|, k requires 0 <= k < |tags| => if tags[k] in byName then Cached(byName[tags[k]]) else Named(tags[k]))
  }

  /** A name cache that files every tag under its own name gives back the
      link's names, in order. */
  lemma ChipsKeepNames(tags: seq<string>, byName: map<string, Tag>)
    requires forall n :: n in byName ==> byName[n].name == n
    ensures Names(ChipsOf(tags, byName)) == tags
  {
  }

  // ---------------------------------------------------------------------
  // The newer link view
  // ---------------------------------------------------------------------

  /** The link view's state while editing. */
  datatype LinkEditor = LinkEditor(
    id: int, url: string, title: string, description: string,
    chips: seq<Chip>, editing: bool, loading: bool, error: string)

  /** `edit`: the link's fields, its tags as chips and editing mode; the
      loading flag and error stay as they were. A link whose tags are null
      makes `map` throw (`None`). */
  function StartEdit(e: LinkEditor, link: ApiLink, byName: map<string, Tag>): (r: Option<LinkEditor>)
    ensures r.Some? <==> link.tags.Some?
    ensures r.Some? ==> r.value.editing && r.value.chips == ChipsOf(link.tags.value, byName)
    ensures r.Some? ==> r.value.id == link.id && r.value.url == link.urlText
                        && r.value.title == link.title && r.value.description == link.description
    ensures r.Some? ==> r.value.loading == e.loading && r.value.error == e.error
  {
    match link.tags
    case None => None
    case Some(tags) =>
      Some(LinkEditor(link.id, link.urlText, link.title, link.description, ChipsOf(tags, byName), true, e.loading, e.error))
  }

  /** `saveEdit`: nothing while a save is loading; otherwise loading starts
      and the request carries the fields and the chips' names (the editing
      flag, the suggestions and the page HTML are not sent). */
  function SaveEdit(e: LinkEditor): (r: Option<(LinkEditor, TagText.LinkRequest)>)
    ensures r.None? <==> e.loading
    ensures r.Some? ==> r.value.0 == e.(loading := true)
    ensures r.Some? ==> r.value.1 == TagText.LinkRequest(e.id, e.url, e.title, e.description, Names(e.chips))
  {
    if e.loading then None
    else Some((e.(loading := true), TagText.LinkRequest(e.id, e.url, e.title, e.description, Names(e.chips))))
  }

  /** `finishEdit`: the error is cleared and editing and loading end;
      nothing else changes. */
  function FinishEdit(e: LinkEditor): (r: LinkEditor)
    ensures r.error == "" && !r.editing && !r.loading
    ensures r.id == e.id && r.url == e.url && r.title == e.title && r.description == e.description && r.chips == e.chips
  {
    e.(error := "", editing := false, loading := false)
  }

  /** Opening a link for editing and saving it untouched sends its tags as
      they were, when the caches are consistent. */
  lemma EditThenSaveKeepsTags(e: LinkEditor, link: ApiLink, c: Client.Caches)
    requires Client.Consistent(c)
    requires link.tags.Some? && !e.loading
    ensures SaveEdit(StartEdit(e, link, c.byName).value).value.1.tags == link.tags.value
  {
    ChipsKeepNames(link.tags.value, c.byName);
  }

  // ---------------------------------------------------------------------
  // The newer add view
  // ---------------------------------------------------------------------

  /** The add view's state. */
  datatype AddView = AddView(url: string, title: string, description: string, chips: seq<Chip>, saving: bool)

  /** The initial state: the given fields with no chips, whatever tags the
      route passed in. */
  function NewAddView(url: string, tags: string, title: string, description: string): (v: AddView)
    ensures v.chips == [] && !v.saving
    ensures v.url == url && v.title == title && v.description == description
  {
    AddView(url, title, description, [], false)
  }

  /** `save`: saving starts and the request carries the fields and the
      chips' names in list order. */
  function SaveAdd(v: AddView): (r: (AddView, TagText.LinkRequest))
    ensures r.0 == v.(saving := true)
    ensures r.1.tags == Names(v.chips)
    ensures r.1.url == v.url && r.1.title == v.title && r.1.description == v.description
  {
    (v.(saving := true), TagText.LinkRequest(0, v.url, v.title, v.description, Names(v.chips)))
  }

  /** Chips built up by `addTag` and `deleteTag` from the empty list are
      sent as distinct names. */
  lemma SaveAddSendsDistinctTags(v: AddView)
    requires DistinctNames(v.chips)
    ensures forall i, j :: 0 <= i < j < |SaveAdd(v).1.tags| ==> SaveAdd(v).1.tags[i] != SaveAdd(v).1.tags[j]
  {
  }
}
