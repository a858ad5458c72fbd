# lindeb, modelled in Dafny

lindeb is a bookmark manager. Its backend is written in Go: the `api`
handlers sit on a MySQL database (`db`) and an Elasticsearch index. Its
frontend is a React web app, plus a Firefox extension popup. This project
models the deterministic rules under the HTTP, SQL and rendering layers.
It models them as pure Dafny functions over immutable records, and proves
what those rules promise.

The modules follow the program's structure:

- `Wrappers` holds `Option` and `Result`.
- `Http` holds status codes, replies, method routing and query strings.
- `Text` holds the string primitives borrowed from Go's `strings`/`strconv` and from JavaScript: split, join, trim, UTF-8 length, decimal printing and parsing, and 64-bit `Atoi`.
- `Records` holds the link, tag and user records.
- Backend:
  - `Paging` covers `api/browselinks.go`: `getQueryInt`, `filterLinks`, `paginate`, `BrowseLinks`.
  - `LinkApi` covers `api/link.go`: conversions, `Copy`, the merge rules of `SaveLink`/`EditLink`, `DeleteLink`, `AccessLink`.
  - `TagApi` covers `api/tag.go`: `AddTag`, `EditTag`, `ListTags`, `GetTag`, the `DeleteTag` cascade, `AccessTag`.
  - `TagQueries` covers `db/tag.go`: the `GetTagsByName` query builder, `scanTag` and `scanTags`.
  - `LinkRows` covers `db/link.go`: `BlankLink`, `scanLink`, `scanLinks`, `GetLink`.
  - `Import` covers `api/import.go`: format dispatch, the two dump readers and the insert loop.
  - `SettingStore` and `SettingsApi` cover `db/setting.go` and `api/settings.go`.
  - `Auth` covers `api/auth.go`: `tokenRegex`, `GetUser`, the `Login`/`Register` guards and `dbToAPIUser`.
  - `WebReader` covers `api/webreader.go`: `findMetadata` over a token stream, `scrapeLink`, `cleanStr`.
- Frontend:
  - `Client` covers `frontend/src/lindeb.js` and its older twin `frontend/src/components/lindeb.js`: headers, error classification, tag caches, link-list updates and paging.
  - `PageSwitcher` covers `frontend/src/components/pageswitcher.js`.
  - `TagText` covers the comma-separated tag text of `link.js`, `addlink.js` and `firefox/save.js`.
  - `TagEditor` covers the chip editors of `link/full.js` and `link/add.js`.
  - `ClientSettings` covers the Proxy-backed settings object of `frontend/src/settings.js`.
  - `SettingsViews` covers the button groups of `settings/extension.js` and `settings/website.js`.
  - `Errorable` covers `util/errorable.js`.
  - `MapHelpers` covers `helpers.js`.

What the code cannot compute becomes a parameter:

- the URL parser;
- the HTML tokenizer's token stream and `html.UnescapeString`;
- the password check and the Pinboard time parser;
- the clock and the database's new ids;
- `Link.Matches`;
- whether each database or index write succeeds.

Go's `int` is 64 bits wide. The model uses unbounded integers. It writes the wrap-around of `paginate`'s page arithmetic out in `Paging.Wrap64` and `Paging.CutAsWritten`. `Paging.Paginate` and `Paging.BrowseLinks` cut with it, so an overflowing page panics there as in the code. JavaScript's `Math.ceil(a / b)` is integer ceiling division (`Client.CeilDiv`). Unary `+` on a query string is `Client.JsNumber`.

Where the code and the documentation disagree, the model follows the code. The documentation describes a search-string mini-language behind the top bar's toggle. `frontend/src/components/topbar.js` has neither the toggle nor a parser, so no such language is modelled.

## Model

| member | source | states |
|---|---|---|
| `Http.RouteOf` | api/link.go:158-170 | GET, PUT and DELETE each reach their own handler and every other method panics, as an if-and-only-if per route. |
| `Text.JoinSplit` | api/import.go:123 | Joining the pieces of `strings.Split(s, sep)` with the separator gives back `s`. |
| `Text.SplitJoin` | api/import.go:123 | Splitting separator-free pieces joined by the separator restores the pieces. |
| `Text.Split` | api/import.go:123 | Split yields one more piece than there are separators, and no piece holds the separator. |
| `Text.TrimIsTrimmed` | api/webreader.go:112 | A trimmed string has no space at either end. |
| `Text.LowerToAscii` | api/webreader.go:112 | A character lower-cases to an ASCII character that is not a capital exactly when it is that character, its capital, or the dotted capital I (to "i") or the Kelvin sign (to "k"). |
| `Text.ToLower` | api/webreader.go:112 | Lower-casing keeps the length and maps each character on its own: capitals to small letters, and the dotted capital I and the Kelvin sign to "i" and "k". |
| `Text.Utf8Length` | api/settings.go:73 | Go's byte length of a string lies between its character count and four times that. |
| `Text.Atoi` | api/browselinks.go:40-54 | `strconv.Atoi` accepts only 64-bit values, rejects the empty string, and reads a digit string as its decimal value. |
| `Text.AtoiRoundTrip` | api/browselinks.go:40-54 | Every 64-bit integer printed in decimal parses back to itself. |
| `Paging.GetQueryInt` | api/browselinks.go:40-54 | An absent or empty parameter gives (default, true), an integer gives (value, true), and anything else gives (default, false). |
| `Paging.GetQueryIntRoundTrip` | api/browselinks.go:40-54 | A parameter holding a 64-bit integer's decimal spelling reads back as that integer. |
| `Paging.Wrap64` | api/browselinks.go:87-88 | The result lies in the 64-bit range and equals the input when the input already fits. |
| `Paging.PageOf` | api/browselinks.go:87-97 | Page p of size s is exactly `links[(p-1)*s .. min(p*s, len)]`; it never holds more than s links and is empty when its start is past the end. |
| `Paging.CutAsWrittenAgrees` | api/browselinks.go:87-101 | While page*size fits in 64 bits, the code's cut equals the exact page. |
| `Paging.CutAsWrittenPanics` | api/browselinks.go:87-101 | Page 4 of size 2^62 wraps the start index and slices out of bounds, though the exact page is empty. |
| `Paging.Paginate` | api/browselinks.go:78-107 | A bad `page` or `pagesize` stops with ok false. When page or size is not positive, `paginated` stays nil (`Unpaged`) with ok true. Otherwise the list is cut with the 64-bit products as written, and that cut is the exact page whenever page*pagesize fits in 64 bits. `page` defaults to 0 and `pagesize` to 10. |
| `Paging.PaginateDefaults` | api/browselinks.go:79-86 | A query with neither parameter leaves `paginated` nil (`Unpaged`), with ok true, because the default page is 0. |
| `Paging.PagesPartition` | api/browselinks.go:87-97 | Pages 1..ceil(n/size), laid end to end, are the whole list in order. |
| `Paging.PagesArePrefix` | api/browselinks.go:87-97 | The first k pages together are exactly the first min(k*size, n) links. |
| `Paging.MatchingSound` | api/browselinks.go:60-76 | Every link the filter keeps is the conversion of an input link that matches. |
| `Paging.MatchingAll` | api/browselinks.go:60-76 | When every link matches, none is dropped. |
| `Paging.FilterLinks` | api/browselinks.go:60-76 | The loop keeps exactly the matching links, converted and in order, and gives an empty list rather than nil. |
| `Paging.BrowseLinks` | api/browselinks.go:163-199 | 500 exactly when listing or searching fails, and 400 exactly when that succeeds but a paging parameter is bad. When the cut neither fails nor panics, the answer is 200 with the total count of links before the cut and what `paginate` hands back. That is null (`Unpaged`) when no positive page and size are given, so a query without `page` answers `"links": null`, and otherwise the page. When the cut panics, no reply is written (`None`). |
| `Paging.BrowseLinksServesPage` | api/browselinks.go:163-199 | While page*pagesize fits in 64 bits, a successful listing answers 200 with exactly page `page` of the links, as `PageOf` cuts it, and their total count. |
| `Paging.BrowseLinksWrappedPagePanics` | api/browselinks.go:87-101 | A search for page 4 of size 2^62 over a non-empty result panics instead of answering. |
| `PageSwitcher.Button` | frontend/src/components/pageswitcher.js:93-97 | A page button is marked current exactly when its number is the current page. |
| `PageSwitcher.Run` | frontend/src/components/pageswitcher.js:35-41 | A run of buttons from `from` to `to` holds one button per page, in order. |
| `PageSwitcher.Window` | frontend/src/components/pageswitcher.js:45-60 | With at least 7 pages, the window spans exactly 7 pages inside 1..pageCount and contains the current page when that page is valid. |
| `PageSwitcher.PageButtons` | frontend/src/components/pageswitcher.js:32-91 | Under 7 pages, the buttons are exactly 1..pageCount. Otherwise a start jump appears iff the window starts after 2, an end jump appears iff it ends before pageCount-1, and the first button is page 1 and the last is pageCount. |
| `PageSwitcher.WindowNumbers` | frontend/src/components/pageswitcher.js:65-87 | The numbers shown are page 1 iff the window starts later, then the window, then pageCount iff the window ends earlier. |
| `PageSwitcher.PageNumbersOrdered` | frontend/src/components/pageswitcher.js:32-91 | The numbers shown strictly increase and lie in 1..pageCount. With at least one page they start at 1 and end at pageCount. |
| `PageSwitcher.CurrentIsPage` | frontend/src/components/pageswitcher.js:93-97 | Exactly the button whose number is the current page is marked current. |
| `LinkRows.BlankLink` | db/link.go:41-46 | A blank link belongs to the user and has id 0, no URL, no tags and empty fields. |
| `LinkRows.ScanLink` | db/link.go:49-71 | A row scans exactly when it exists and its stored URL parses. The link then carries the row's fields and the user as owner. |
| `LinkRows.ScannedAll` | db/link.go:74-87 | When every row scans, the scanned list has one link per row, in order. |
| `LinkRows.ScanLinks` | db/link.go:74-87 | With `ignoreErrors`, the loop returns exactly the rows that scan, in order, and no error. Without it, the loop returns every row, or the links before the first failing row plus that error. |
| `LinkRows.GetLink` | db/link.go:99-102 | `GetLink` is nil exactly when `TryGetLink` fails, and is its link otherwise. |
| `LinkApi.DbToApiLink` | api/link.go:44-62 | A nil URL gives an empty url and domain; otherwise they are the URL's text and host. Tags are never nil. Owner and HTML are left empty. |
| `LinkApi.ApiToDbLink` | api/link.go:64-76 | Id, title, description, timestamp and tags carry over, the URL is parsed, and the owner is the given user. |
| `LinkApi.Copy` | api/link.go:78-88 | Every field except owner and HTML is kept; those two become empty. |
| `LinkApi.DbApiRoundTrip` | api/link.go:44-76 | Converting a stored link to the API form and back gives the same link, when its URL reparses to itself and its tags are set. |
| `LinkApi.CopyFixesConverted` | api/link.go:78-88 | `Copy` changes nothing on a converted link and is idempotent. |
| `LinkApi.SaveInput` | api/link.go:96-105 | A POST takes the JSON body. Any other method reads url, title and description from the query, plus every repeated `tag`. |
| `LinkApi.Prefer` | api/link.go:118-123 | A non-empty supplied field wins over the scraped one, and an empty one falls back to it. |
| `LinkApi.SaveLink` | api/link.go:94-140 | An undecodable body or a malformed URL answers 400 and stores nothing. 201 comes exactly when both writes succeed. The stored link takes the supplied title and description where non-empty and the scraped ones otherwise. The new id is one the store does not hold yet (the table's AUTO_INCREMENT key), and a change to the store adds only that id. |
| `LinkApi.SavedTitleNonEmpty` | api/link.go:111-123 | A created link whose URL text is non-empty always has a non-empty title. |
| `LinkApi.EditLink` | api/link.go:178-219 | A malformed URL answers 400. 200 comes exactly when the input is good and both writes succeed, and 500 exactly when it is good and a write fails. The URL is replaced only by non-empty input. The title and description are the non-empty input, or else the fresh scrape of the page, which overwrites the stored ones. No other link in the store changes. |
| `LinkApi.EditKeepsUrl` | api/link.go:189-196 | An edit with an empty URL keeps the link's URL. |
| `LinkApi.GetLinkReplyRoundTrip` | api/link.go:173-175 | The link `GetLink` answers with reads back, through `ApiToDbLink`, as the stored link, when its URL re-parses to itself and its tags are set. |
| `LinkApi.DeleteLink` | api/link.go:237-257 | A successful delete answers 204 and removes the link; a failed one answers 500 and keeps the store. |
| `LinkApi.AccessLink` | api/link.go:158-170 | GET, PUT and DELETE reach the get, edit and delete handlers; any other method panics. |
| `TagApi.AddTag` | api/tag.go:27-51 | An undecodable body answers 400 and a name the user already has answers 409, both leaving the store alone. 201 comes exactly when the name is free and the insert succeeds, and the new tag then has the new id and the user as owner. |
| `TagApi.EditTag` | api/tag.go:99-127 | 400 exactly for an undecodable body. The rename happens only for a non-empty name that no tag of the user has, the tag's own current name included (409 otherwise). 500 exactly when the body decodes and does not conflict but the update fails, and 200 with the edited tag exactly when the update succeeds. The description is overwritten only when non-empty. Failures leave the store alone. |
| `TagApi.RenameToOwnNameConflicts` | api/tag.go:108-115 | Renaming a tag to its own name answers 409. |
| `TagApi.AddTagKeepsNamesUnique` | api/tag.go:38-42 | Adding a tag keeps each user's tag names pairwise distinct. |
| `TagApi.EditTagKeepsNamesUnique` | api/tag.go:108-115 | Editing a tag keeps each user's tag names pairwise distinct. |
| `TagApi.ListTags` | api/tag.go:177-194 | The by-name query runs iff at least one `tag` parameter is given, and all tags are listed otherwise. A failed query answers 500. |
| `TagApi.GetTag` | api/tag.go:74-96 | Without `include-links`, the tag alone is answered, with no links field. With it, 500 is answered when fetching the links failed. Otherwise the field is null when no link carries the tag, since nothing is appended to the nil slice, and else the tag's links converted in order. |
| `TagApi.NoDeleteErrors` | api/tag.go:133-148 | The cascade counts no error exactly when no link's database delete or index delete failed. |
| `TagApi.DeleteTaggedLinks` | api/tag.go:143-158 | The link loop: exactly the tagged links whose database delete succeeds leave the store, the rest stay as they were, and each failed database or index delete counts one error. |
| `TagApi.DeleteTag` | api/tag.go:129-175 | With `delete-links`, every tagged link is deleted first. Any failure answers 500 and keeps the tag and every remaining link as it was, though the links already deleted stay deleted. Otherwise the tag is deleted and 204 is answered. The `LinkTag` rows cascade with it, so the remaining links of the tag's owner lose its name and nothing else. |
| `TagApi.Untagged` | db/db.go:119-126 | The `ON DELETE CASCADE` on `LinkTag.tag`: a link of the tag's owner keeps every tag name but the deleted one, and a link of another user is unchanged. |
| `TagApi.DeletedTagLeavesNoLink` | api/tag.go:168-174 | After a 204 the tag is gone, and no remaining link of its owner carries its name. |
| `TagApi.AccessTag` | api/tag.go:54-66 | GET answers what `GetTag` answers, and PUT answers and stores what `EditTag` does. DELETE meets the whole outcome of `DeleteTag`: the 204/500 reply, the tag store and the link store. Any other method panics. |
| `TagQueries.TagsByNameQuery` | db/tag.go:82-94 | A query exists only for at least one name, since the code's repeat count would be negative for none. |
| `TagQueries.PlaceholderCount` | db/tag.go:87-88 | The query for n names has n+1 placeholders. |
| `TagQueries.TagsByNameArgsAsWritten` | db/tag.go:83-84 | The code passes exactly two arguments, the user id and the whole name slice. |
| `TagQueries.ArgsMatchOnlyForOneName` | db/tag.go:83-88 | Placeholders and arguments agree iff there is exactly one name. |
| `TagQueries.TagsByNameArgs` | db/tag.go:82-94 | The corrected arguments are the user id followed by each name, one per placeholder. |
| `TagQueries.ArgsMatchPlaceholders` | db/tag.go:82-94 | The corrected arguments match the placeholders for every non-empty name list. |
| `TagQueries.ScanTag` | db/tag.go:43-58 | A row scans iff it exists, giving its fields with the user as owner. |
| `TagQueries.ScanTags` | db/tag.go:61-71 | The loop fails iff some row fails. Without failure it returns every row's tag in order; with one it returns the tags before the first failing row. |
| `Import.PinboardTags` | api/import.go:123-126 | An empty tags string gives no tags. Otherwise there is one tag more than there are spaces, no tag holds a space, and joining them with spaces restores the string. |
| `Import.PinboardTagsEmptyOnlyForEmpty` | api/import.go:123-126 | The tag list is empty exactly when the tags string is. |
| `Import.PinboardTagsRoundTrip` | api/import.go:123-126 | Space-free tags, other than the single empty tag, come back unchanged from joining and splitting. |
| `Import.DoubleSpaceMakesEmptyTag` | api/import.go:123 | Two consecutive spaces produce an empty tag. |
| `Import.FromPinboard` | api/import.go:108-140 | href becomes the URL, description the title, extended the description, and tags the split tags. An unparseable time falls back to the current time. The owner is the user. |
| `Import.ReadLindebDump` | api/import.go:84-98 | An undecodable body gives nothing. Otherwise each entry is converted with the user as owner, one link per entry, in order. |
| `Import.ReadPinboardDump` | api/import.go:108-140 | An undecodable body gives nothing. Otherwise each entry maps to one link, in order. |
| `Import.ImportLinksWith` | api/import.go:30-82 | A format other than lindeb or pinboard answers 415, and an undecodable dump answers 400; both import nothing. A dump that decodes goes through the insert loop, whose writes and first error status are the answer. |
| `Import.ImportLinksClean` | api/import.go:50-81 | A decodable dump in a known format whose writes all succeed answers 200 with one entry per link, in order, and every link is written. |
| `Import.ImportAllClean` | api/import.go:50-64 | When nothing fails, the answer is 200 with one entry per input link at the same index, and every link is written in order. |
| `Import.ImportStopsAtFailure` | api/import.go:50-64 | Returning at a failed insert, the links written are a prefix of the input with no failure before its last link. |
| `Import.ImportContinuesAfterFailedInsert` | api/import.go:53-55 | As written, a failed first insert answers 500, yet the second link is still written. |
| `SettingStore.Get` | db/setting.go:19-25 | A stored key reads its value and a missing key reads "". |
| `SettingStore.Set` | db/setting.go:44-49 | The upsert sets the user's key to the value and leaves every other user's settings alone. |
| `SettingStore.Delete` | db/setting.go:51-54 | Deleting removes only that key of that user. |
| `SettingStore.SetThenGet` | db/setting.go:44-49 | After setting, the key reads the new value whether or not it existed; every other (user, key) reads as before. |
| `SettingStore.DeleteThenGet` | db/setting.go:51-54 | After deleting, the key reads "" and every other (user, key) reads as before. |
| `SettingStore.SetIdempotent` | db/setting.go:44-49 | Setting the same value twice is the same as setting it once. |
| `SettingStore.ScanSettings` | db/setting.go:27-42 | The scan fails iff some row fails, and otherwise gives the rows' key to value map. |
| `SettingStore.RowsGiveStore` | db/setting.go:27-42 | Rows listing exactly a user's entries scan back to that user's map. |
| `SettingsApi.UpdateSetting` | api/settings.go:54-82 | An undecodable value answers 400. A key over 32 bytes answers 413, checked first; so does a value over 65535 bytes. The store is written, with 200, exactly when both limits hold. |
| `SettingsApi.GetSetting` | api/settings.go:84-103 | A key over 32 bytes answers 413 before the store is read. An empty stored value answers 404; otherwise the stored raw value is answered with 200. |
| `SettingsApi.DeleteSetting` | api/settings.go:105-120 | A key over 32 bytes answers 413 and changes nothing. Otherwise the key is deleted and 204 is answered. |
| `SettingsApi.GetSettings` | api/settings.go:24-38 | A failed read answers 500; otherwise every stored key is answered with its raw value. |
| `SettingsApi.UpdateThenGet` | api/settings.go:54-103 | A value within the limits that was stored reads back with 200. |
| `SettingsApi.DeleteThenGetMissing` | api/settings.go:84-120 | A deleted key reads as 404. |
| `SettingsApi.AccessSetting` | api/settings.go:40-52 | GET, PUT and DELETE reach their handlers; any other method panics. |
| `Auth.DbToApiUser` | api/auth.go:37-42 | Only the id and name are copied; password and token stay empty. |
| `Auth.FindMatch` | api/auth.go:103 | A match captures a non-empty digit string and a non-empty letter string. |
| `Auth.HeaderMatches` | api/auth.go:103 | The header formatted from a digit id and a letter token matches with exactly that id and token. |
| `Auth.TokenStopsAtNonLetter` | api/auth.go:103 | The captured token stops at the first non-letter, dropping what follows. |
| `Auth.GetUser` | api/auth.go:108-137 | An empty header, one without the `LINDEB-TOKEN` prefix, or one without a match gives no user. A user found is the one whose id the digits spell, and the token is one of theirs. |
| `Auth.GetUserRoundTrip` | api/auth.go:108-137 | The header the client formats from a user's id and one of their tokens authenticates exactly that user. |
| `Auth.SendsHeaderAsWrittenNever` | api/auth.go:47 | The guard as written, an empty header that starts with `LINDEB-TOKEN`, never holds. |
| `Auth.LoginChecked` | api/auth.go:45-65 | An undecodable body answers 400. An unknown user or a wrong password answers 401, and no failure changes the users. 200 comes exactly when the user exists and the password matches. The answer then carries the user's id, name and new token. That user is stored with the new token added, and every other user is kept. |
| `Auth.WithToken` | db/authtoken.go:31-40 | Generating a token stores it with the given user; every other user and the number of users stay the same. |
| `Auth.LoginThenAuthenticates` | api/auth.go:44-65 | After a successful login, the header formatted from the user's id and the token just handed out authenticates that user. This assumes the token is letters only, as the token pattern requires. |
| `Auth.RegisterChecked` | api/auth.go:80-101 | An undecodable body answers 400 and a taken name answers 409. 201 comes exactly when the name is free, and the new user then has that name. |
| `Auth.RegisterKeepsNamesUnique` | api/auth.go:80-101 | Registering never gives two users the same name. |
| `Auth.Login` | api/auth.go:45-65 | Corrected guard: a request that sends a lindeb header is refused with 403 and nothing changes; any other request is the login proper. |
| `Auth.Register` | api/auth.go:80-101 | Corrected guard: a request that sends a lindeb header is refused with 403 and nothing changes; any other request is the registration proper. |
| `Auth.LoginIgnoresHeaderAsWritten` | api/auth.go:45-101 | As written, login and registration with a lindeb header proceed as if none were sent; the corrected guards refuse them with 403. |
| `WebReader.CleanStr` | api/webreader.go:111-113 | The cleaned string is no longer than the input and has no surrounding whitespace. |
| `WebReader.DottedCapitalIPropertyIsTitle` | api/webreader.go:111-113 | A property written "og:t" + U+0130 + "tle" cleans to "og:title", as `strings.ToLower` makes it. |
| `WebReader.CleanStrIdempotent` | api/webreader.go:111-113 | Cleaning twice is cleaning once. |
| `WebReader.KindOf` | api/webreader.go:79-97 | A meta tag is an `og:title` or an `og:description` exactly when its cleaned property says so. |
| `WebReader.ErrorTokenEndsScan` | api/webreader.go:63-65 | Nothing after the first error token affects the result. |
| `WebReader.TitleStable` | api/webreader.go:89-105 | A non-empty title survives every later token except an `og:title`. |
| `WebReader.DescriptionStable` | api/webreader.go:91-97 | A non-empty description survives every later token except an `og:description`. |
| `WebReader.OgTitleWins` | api/webreader.go:89-90 | The last `og:title` with content decides the title, whatever came before. |
| `WebReader.DescriptionMetaRules` | api/webreader.go:91-97 | `og:description` overwrites the unescaped description. A plain `description` meta fills it only when it is empty. |
| `WebReader.CorrectedTitleComesFromText` | api/webreader.go:98-105 | With the corrected title rule, the title is always empty or the text of a token in the page, and an empty title element gives an empty title. |
| `WebReader.EmptyTitleElementAsWritten` | api/webreader.go:98-105 | As written, `<title></title>` makes the title "title", which is no text of the page. |
| `WebReader.ScrapeLink` | api/webreader.go:45-58 | An empty body gives the "unreachable" title and description. Otherwise the extracted metadata is used, with the URL as the title when none was found; so a non-empty URL always gives a non-empty title. |
| `Client.RequestHeaders` | frontend/src/lindeb.js:175-185 | Content-Type is always JSON, and the `LINDEB-TOKEN` authorization is present iff a user is set. |
| `Client.HeadersAuthenticate` | frontend/src/lindeb.js:182 | The authorization the client sends for a user and one of their tokens is parsed by the server back to that user. |
| `Client.IsAuthenticated` | frontend/src/components/lindeb.js:92-94 | Authenticated iff a user is stored. |
| `Client.AuthenticatedSendsHeader` | frontend/src/components/lindeb.js:80-94 | The client sends an authorization header exactly when it counts as authenticated. |
| `Client.ThrowError` | frontend/src/lindeb.js:202-234 | Logging in maps 401 to "Invalid username or password" and 409 to "Username is already in use". Otherwise 400, 413, 429, 500 and 502 get their messages and anything else is "Unknown error". A 401 outside login forgets the user instead of throwing. |
| `Client.LoginErrorsFallThrough` | frontend/src/lindeb.js:206-215 | Apart from 401 and 409, logging in is classified like any other action. |
| `Client.CachesOf` | frontend/src/components/lindeb.js:109-111 | Both caches are built from the same fetched list: every tag's id is a key of the id cache and its name a key of the name cache. A missing list gives empty caches. |
| `Client.CachesOfDistinct` | frontend/src/lindeb.js:240-250 | A list with distinct ids and names gives consistent caches, where each tag is filed under its own id and name in both. |
| `Client.SaveTagAsWritten` | frontend/src/lindeb.js:321-328 | As written, a saved tag is filed under its id and new name, and the entry deleted is the one under the submitted name. |
| `Client.RenameLeavesStaleName` | frontend/src/lindeb.js:321-328 | Renaming "a" to "b" leaves "a" in the name cache, so the caches are no longer consistent. |
| `Client.SaveTag` | frontend/src/lindeb.js:302-336 | Corrected: the saved tag is filed under its id and name, and a failed save changes nothing. |
| `Client.SaveTagKeepsConsistent` | frontend/src/lindeb.js:321-328 | With the old name's entry removed, saving or renaming a tag keeps the caches consistent. |
| `Client.DeleteTag` | frontend/src/lindeb.js:353-357 | Deleting removes exactly that id and that tag's name, and every other entry is unchanged. |
| `Client.DeleteTagKeepsConsistent` | frontend/src/lindeb.js:353-357 | Deleting keeps the caches consistent, and no name still points at the deleted id. |
| `Client.WithoutFirst` | frontend/src/lindeb.js:383-388 | Only the first link with the id is removed and the others keep their order; a list without it is unchanged. |
| `Client.WithFirstReplaced` | frontend/src/lindeb.js:477-484 | Only the first link with the answer's id is replaced, so the length is kept; a list without it is unchanged. |
| `Client.RemoveLink` | frontend/src/components/lindeb.js:132-139 | The loop removes exactly the first link with the id. |
| `Client.ReplaceLink` | frontend/src/components/lindeb.js:153-160 | The loop replaces exactly the first link with the answer's id. |
| `Client.CheckForNewTags` | frontend/src/lindeb.js:402-415 | A refresh is asked for iff some tag of the link is missing from the name cache. |
| `Client.UpdateLink` | frontend/src/lindeb.js:459-490 | The first link with the answer's id is replaced, the length is kept, and a refresh is asked for iff the answer carries an unknown tag name. |
| `Client.JsNumber` | frontend/src/lindeb.js:521-522 | Unary `+` reads a digit string as its decimal value and a blank string as 0. |
| `Client.CeilDiv` | frontend/src/lindeb.js:522 | The result is the least integer not below the quotient, for either sign of the divisor. |
| `Client.PageCount` | frontend/src/lindeb.js:522 | The page count is defined iff the page size is a non-zero number, and is then the ceiling of total / size. |
| `Client.WithDefaults` | frontend/src/lindeb.js:504-509 | `page` defaults to "1" and `pagesize` to "10", and every parameter given is kept. |
| `Client.OpenLinkList` | frontend/src/lindeb.js:498-528 | A successful fetch shows the links, the page read from the query and the page count from the total and the page size. |
| `Client.OpenLinkListOld` | frontend/src/components/lindeb.js:165-185 | The old view shows the links and the page count, but no current page. |
| `Client.OpenLinkListDefaults` | frontend/src/lindeb.js:504-523 | With no parameters, page 1 is shown and the page count is ceil(total / 10). |
| `Client.SwitchPage` | frontend/src/lindeb.js:535-540 | Switching is refused iff the target is below 1 or above the page count; otherwise the target page is set. |
| `Client.PagesShowLinks` | frontend/src/lindeb.js:522 | For a positive page size, every page that `switchPage` lets through is non-empty on the server's side, and the page after the last one is empty. |
| `TagText.ParseTags` | frontend/src/components/link.js:61 | Parsed tags are non-empty, comma-free and trimmed, and there are at most one more of them than there are commas. |
| `TagText.ParseAppend` | frontend/src/components/link.js:61 | Parsing text joined by a comma is parsing each side and concatenating, so order is preserved. |
| `TagText.ParseEmpty` | frontend/src/components/addlink.js:47 | The text parses to no tags exactly when it is made of commas and whitespace. |
| `TagText.FormatThenParse` | frontend/src/components/link.js:50-61 | Well-formed tags joined with ", " parse back to themselves. |
| `TagText.ParseIdempotent` | frontend/src/components/link.js:50-61 | Parsing the joined parse of any text gives that parse again. |
| `TagText.EmptyTagDropped` | frontend/src/components/link.js:50-61 | An empty tag in the list is dropped by joining and parsing. |
| `TagText.EditLinkForm` | frontend/src/components/link.js:48-52 | `edit` enters editing with the tags joined by ", ". |
| `TagText.SaveLinkForm` | frontend/src/components/link.js:58-65 | `saveEdit` leaves editing and sends the fields with the parsed, well-formed tags. |
| `TagText.EditUnchangedKeepsTags` | frontend/src/components/link.js:48-65 | Editing and saving unchanged well-formed tags sends them as they were. |
| `TagText.EditDropsEmptyTag` | frontend/src/components/link.js:48-65 | Editing and saving a link with an empty tag drops it. |
| `TagText.SaveAddForm` | frontend/src/components/addlink.js:45-49 | `save` sends the fields with the parsed, well-formed tags. |
| `TagText.PopupSave` | firefox/save.js:50-75 | The popup sends its stored authorization, exactly the title, url and description, and the parsed tags: at most one more than there are commas. |
| `TagText.InitPopup` | firefox/save.js:78-90 | The save form is shown iff a non-empty authorization header is stored, and it then uses that header. |
| `TagEditor.AddChip` | frontend/src/components/link/full.js:87-95 | A chip whose name is already listed is ignored; any other is appended. |
| `TagEditor.AddChipKeepsDistinct` | frontend/src/components/link/add.js:62-70 | Adding keeps the names pairwise distinct, and the name is listed afterwards. |
| `TagEditor.SpliceOne` | frontend/src/components/link/full.js:97-101 | A valid index removes exactly that chip and keeps the rest in order. A negative index counts from the end, and an index past the end removes nothing. |
| `TagEditor.DeleteChipKeepsDistinct` | frontend/src/components/link/add.js:72-76 | Deleting keeps the names pairwise distinct. |
| `TagEditor.ChipsOf` | frontend/src/components/link/full.js:56-58 | Each tag name becomes its cached tag, or a bare name when the cache lacks it, one chip per name. |
| `TagEditor.ChipsKeepNames` | frontend/src/components/link/full.js:56-58 | With a cache keyed by each tag's own name, the chips carry the link's names in order. |
| `TagEditor.StartEdit` | frontend/src/components/link/full.js:55-60 | `edit` copies the link's fields, shows its tags as chips and enters editing. Null tags throw. |
| `TagEditor.SaveEdit` | frontend/src/components/link/full.js:66-80 | Nothing happens while loading. Otherwise loading starts and the request carries the fields and the chips' names. |
| `TagEditor.FinishEdit` | frontend/src/components/link/full.js:62-64 | `finishEdit` clears the error and ends editing and loading, changing nothing else. |
| `TagEditor.EditThenSaveKeepsTags` | frontend/src/components/link/full.js:55-80 | Opening a link and saving it untouched sends its tags as they were, given consistent caches. |
| `TagEditor.NewAddView` | frontend/src/components/link/add.js:34-39 | The add view starts with no chips and not saving, whatever tags it was given. |
| `TagEditor.SaveAdd` | frontend/src/components/link/add.js:55-60 | `save` starts saving and sends the chips' names in list order. |
| `TagEditor.SaveAddSendsDistinctTags` | frontend/src/components/link/add.js:55-76 | Chips kept distinct by the editor are sent as distinct names. |
| `ClientSettings.JsonFields` | frontend/src/settings.js:90-91 | The stored snapshot keeps exactly the fields whose value is not `undefined`. |
| `ClientSettings.JsonPlain` | frontend/src/settings.js:90-91 | A value without `undefined` inside survives the JSON snapshot unchanged. |
| `ClientSettings.Load` | frontend/src/settings.js:24 | The data is the stored snapshot, or empty when none is stored. |
| `ClientSettings.Get` | frontend/src/settings.js:39-46 | A read resolves a reserved name to the object's member, an own data key to its value, and anything else to `undefined`. |
| `ClientSettings.Has` | frontend/src/settings.js:47-49 | `in` holds for a data key, and also for any name `Object.prototype` carries. |
| `ClientSettings.OwnKeys` | frontend/src/settings.js:50-52 | Enumeration lists exactly the data keys. |
| `ClientSettings.SetKey` | frontend/src/settings.js:89-104 | `set` changes only that key of the data, persists a snapshot of the result, and sends a PUT for the key. |
| `ClientSettings.DeleteKey` | frontend/src/settings.js:106-119 | `delete` removes only that key, persists a snapshot of the result, and sends a DELETE for the key. |
| `ClientSettings.ProxySet` | frontend/src/settings.js:32-38 | Assigning to a reserved name is refused and changes nothing; any other key is set. |
| `ClientSettings.ProxyDelete` | frontend/src/settings.js:53-59 | Deleting a reserved name is refused and changes nothing; any other key is deleted. |
| `ClientSettings.SetThenGet` | frontend/src/settings.js:32-46 | After assigning to a key that is not reserved, reading it gives the value and every other read is unchanged; a reserved key is left alone. |
| `ClientSettings.DeleteThenGet` | frontend/src/settings.js:53-59 | After deleting, the key reads `undefined` and is no longer listed, and every other read is unchanged. |
| `ClientSettings.HasAgreesWithGet` | frontend/src/settings.js:39-52 | For a name that is not reserved, `in` agrees with enumeration, and a present key reads its data value. |
| `ClientSettings.ReloadRestores` | frontend/src/settings.js:24 | Reloading the persisted snapshot after a `set` restores the data. |
| `ClientSettings.Update` | frontend/src/settings.js:68-87 | A status outside 200..299 fails with "Failed to update settings: " and the status. A null body keeps the data, and any other body replaces it wholesale. |
| `SettingsViews.OpenExtension` | frontend/src/components/settings/extension.js:25-30 | An absent or falsy `extension` setting is set to an empty object, and afterwards it is always truthy. |
| `SettingsViews.SetExtension` | frontend/src/components/settings/extension.js:36-44 | Only the given key of the extension object changes, and the whole object is persisted under "extension". |
| `SettingsViews.ButtonActionOneActive` | frontend/src/components/settings/extension.js:60-69 | The "save" and "popup" buttons are never both active, and one of them is iff the field is unset, "save" or "popup". |
| `SettingsViews.AutofillOneActive` | frontend/src/components/settings/extension.js:75-84 | The Off and On buttons are never both active, and one of them is iff the field is unset or a boolean. |
| `SettingsViews.ClickedButtonActive` | frontend/src/components/settings/extension.js:40-51 | The button just clicked is the active one. |
| `SettingsViews.ScrollbarOneActive` | frontend/src/components/settings/website.js:25-30 | No two of the three scrollbar buttons are active at once. One of them is active exactly when the stored value is falsy or one of the three types; a truthy unknown value such as "foo" leaves none active. |
| `SettingsViews.SetScrollbar` | frontend/src/components/settings/website.js:32-35 | The chosen type is stored, nothing else changes, and a PUT of it is sent. |
| `Errorable.Failed` | frontend/src/util/errorable.js:21-23 | Showing an error sets the message and ends loading and saving. |
| `Errorable.ShowError` | frontend/src/util/errorable.js:18-24 | The message goes to the given component iff it has `showError` and is not the caller; otherwise the caller shows it. |
| `Errorable.ShowErrorTouchesOne` | frontend/src/util/errorable.js:18-24 | Exactly one component shows the message, so it is never both forwarded and shown by the caller. |
| `Errorable.ClearError` | frontend/src/util/errorable.js:26-30 | The error is cleared unless the view is known to be unmounted. |
| `Errorable.ShowThenClear` | frontend/src/util/errorable.js:18-30 | Clearing after showing leaves no error and nothing loading or saving. |
| `MapHelpers.MapOf` | frontend/src/lindeb.js:247-248 | A `Map` built from entries has distinct keys. |
| `MapHelpers.MapSetDistinct` | frontend/src/lindeb.js:323-327 | Setting a key keeps a map's keys distinct. |
| `MapHelpers.MapValues` | frontend/src/helpers.js:19-21 | `map` applies the callback to each value in insertion order, one result per entry. |
| `MapHelpers.FirstMatch` | frontend/src/helpers.js:25-32 | The first value passing the test is found, in insertion order; none is found iff no value passes. |
| `MapHelpers.Find` | frontend/src/helpers.js:25-32 | `find` returns the key of the first passing value, or `undefined`. The callback runs only up to the first match, or on every entry when none passes. |

## Left out

- HTTP and JSON plumbing are not modelled: `readJSON`, `writeJSON`, route registration, the context middlewares and getters. Request bodies arrive already decoded, as `Result` values.
- Elasticsearch is not modelled: query building, the search itself, and the index-update queue. A search result is a parameter, and index writes are reduced to success flags.
- SQL, the schema, bcrypt and token generation are not modelled. The stores are maps, `CheckToken` is membership in the user's token set, and a write's failure is a parameter.
- `Link.Matches`, `GetTagByName`, `UpdateTags` and `util.Reverse` are not part of this model. `Link.Matches` is a parameter, and `UpdateTags` is taken to set the link's tags.
- `readLink`'s network fetch, the HTML tokenizer and `html.UnescapeString` are not modelled. The page is a token sequence and unescaping is a parameter.
- Clocks are not modelled: `time.Now` and the Pinboard time parser are parameters.
- React rendering, the DOM, `localStorage`, file upload, the browser-extension APIs, and the scrollbar and user-agent detection in frontend/src/lindeb.js:115-170 are not modelled, because they are presentation.
- The search-string mini-language is not modelled, because the code has no such parser.
- `Text.Atoi`: a value outside the 64-bit range is a parse failure, as `strconv.Atoi` reports it; the error's kind is not modelled.
- `Client.JsNumber`: only decimal digit strings, optionally signed with `-` or `+`, and blank strings are read. Any other syntax (fractions, hex, exponents, `Infinity`) is `None`, standing for NaN.
- `ClientSettings.Update`: JSON values have no arrays or fractional numbers, and a truthy response body that is not an object is not modelled, since the server answers an object.
- `ClientSettings.Get`: a data key named like an `Object.prototype` member that the server sends back is not modelled apart from other keys.
- `Client.CachesOf`: the old `login` throws when the fetched tag list is null; the model gives empty caches there instead.
- `TagText.SaveAddForm`: the add view's initial state is the route's props copied, which the model takes as the given fields.
- `LinkApi.EditLink`: the page is scraped again on every edit; the scrape's result is a parameter, as in `SaveLink`.
- `Import.ImportLinksWith`: inserts stamp the current time, so a dump's timestamps are overwritten; a nil URL panics in `Insert`, and both are modelled as the code does them, not as a promise. After a failed insert the code writes the 500 and carries on, and at the end it writes the JSON array after the error text in the same response. The model answers the 500 status only.
- `WebReader.ScrapeLink`: it reads the page with the corrected title rule (`FindMetadata`), not the rule as written (`FindMetadataAsWritten`), so the handlers `LinkApi.SaveLink` and `LinkApi.EditLink` store the link's URL as the title of a page whose title element is empty, where the code stores "title". The as-written rule is modelled and its discrepancy is shown under "## Findings".
- What `net/http` does after a handler panics (it logs the panic and drops the connection) is not modelled. `Paging.BrowseLinks` answers `None` there.
- `WebReader.CleanStr`: `strings.ToLower` is modelled only on the characters whose lower case is ASCII (see `Text.ToLower`). Every other non-ASCII letter keeps its case, where Go lower-cases it to another non-ASCII letter. The result is only compared with the ASCII keywords "og:title", "og:description" and "description", and these comparisons come out the same.
- `TagApi.GetTag`: when fetching the tag's links fails, the code writes the 500 but does not return, so the tag's JSON follows the error text in the same response. The model answers the 500 status only.
- `SettingsViews.SetExtension`: a non-object extension value is `None`, whereas the code would throw or silently ignore the assignment.

## Findings

| source | as written | input that shows it | evidently intended | confidence | as-written member | corrected member |
|---|---|---|---|---|---|---|
| db/tag.go:83-88 | `GetTagsByName` builds n+1 placeholders but passes two arguments, the user id and the whole name slice. | Any list of two or more names, e.g. ["a", "b"]: 3 placeholders, 2 arguments. | One argument per placeholder: the user id, then each name. | not executed | `TagQueries.ArgsMatchOnlyForOneName` | `TagQueries.ArgsMatchPlaceholders` |
| api/auth.go:47 | The guard is `len(header) == 0 && HasPrefix(header, "LINDEB-TOKEN")`, which no header satisfies. | Header `LINDEB-TOKEN user=1 token=a`: the login proceeds instead of answering 403. | Refuse a request that sends a lindeb header. | not executed | `Auth.LoginIgnoresHeaderAsWritten` | `Auth.Login` |
| api/webreader.go:98-105 | After a `<title>` start tag, the next token's `Data` becomes the title even when that token is the end tag. | `<title></title>`: the title becomes "title". | Take the title only from a text token. | not executed | `WebReader.EmptyTitleElementAsWritten` | `WebReader.CorrectedTitleComesFromText` |
| api/import.go:53-55 | A failed insert writes a 500 but does not return, so later links are still written. | Two links, the first insert failing: the answer is 500, yet the second link is stored. | Return at the first failed insert. | not executed | `Import.ImportContinuesAfterFailedInsert` | `Import.ImportStopsAtFailure` |
| api/browselinks.go:87-97 | `page*pageSize` is computed in 64-bit `int`, and the slice bounds are taken from the wrapped product. | page 4, pagesize 2^62 on a non-empty list: the start index wraps to a negative value and the slice panics. | An empty page once the start is past the end. | not executed | `Paging.CutAsWrittenPanics` | `Paging.PageOf` |
| frontend/src/lindeb.js:321-328 | After saving a tag, `saveTag` deletes the name cache's entry under the submitted (new) name, not the old one. | Rename tag 1 from "a" to "b": "a" still maps to the tag. | Delete the entry under the tag's previous name. | not executed | `Client.RenameLeavesStaleName` | `Client.SaveTagKeepsConsistent` |
