# Bookmark manager on GitHub issues — a Dafny model

The system keeps one person's bookmarks as the open issues of a GitHub
repository. Each bookmark has a title, a link, a description and tags. The
issue body carries the link and the description on lines starting with
`Link: ` and `Description: `. The tags are the issue's labels. A small Node
service (`server.js`) sits in front of the GitHub API and keeps the open
issues in a memory cache that lives for eight hours. A browser client
(`public/app.js`) lists, searches, filters, creates, edits and deletes
bookmarks.

This project models the core of both files:

- `wrappers.dfy` (`Wrappers`): `Option`, and `Upstream`, the outcome of one
  network request (a parsed reply, or an error message).
- `seqs.dfy` (`Seqs`): the array built-ins the code uses. These are
  `filter`, `findIndex`, `some` and `map`, plus the "keep the first element
  of each key" loop, each with its meaning proved.
- `text.dfy` (`Text`): the string built-ins the code uses. These are `trim`
  with the exact ECMAScript whitespace set, `split('\n')` and `join`,
  `startsWith`, `includes`, `toLowerCase`, `parseInt(_, 16)`,
  `toString(16)` and `padStart`.
- `issue_mapper.dfy` (`IssueMapper`):
  - the issue and bookmark records;
  - `parseIssueBody`, as a loop proved against a scan function;
  - `transformIssue` and the label projection;
  - the body and payload built by the create and update routes;
  - the round trip from a request through the stored issue back to a
    bookmark.
- `server.dfy` (`Server`):
  - the cache (`issuesCache`, `lastFetch`) as a class;
  - `fetchIssues` and every route handler, each returning the GitHub request
    it made;
  - the label colour generator;
  - request sequences on one server.
- `client_view.dfy` (`ClientView`), the client's pure rules:
  - the bookmark filter;
  - the tag-filter toggle;
  - the used-tag list (dedupe by name, first occurrence wins, then sort);
  - the dropdown suggestions and the "create" entry;
  - `getContrastColor`, the default chip colour and `escapeAttribute`;
  - the local list edits.
- `client_app.dfy` (`ClientApp`): the client's global state as a class, with
  handlers that change it in place. It includes the `usedTagsMap` loop and
  the tag-chooser loop of `editBookmark`.

The two files disagree on a bookmark's tags. The server emits tag names as
plain strings (server.js:120). The client reads tags as objects with `name`
and `color` (public/app.js:252, 258, 286). Each file is modelled with its own
shape: `IssueMapper.Bookmark` and `ClientView.ClientBookmark`.

### Behaviour of the code worth knowing

- `parseIssueBody` keeps the last `Link: ` line and the last `Description: `
  line, because each match overwrites the local (server.js:99-106). A body
  with several such lines yields the later values.
- The prefixes cut are 6 characters for `Link: ` and 13 for
  `Description: ` (server.js:102, 104), the lengths of the two prefixes.
- `fetchIssues` never fails. A failed fetch returns the cache as it is, even
  when the cache is empty (server.js:145-148). `GET /api/bookmarks` then
  answers 200 with `[]`, and `POST /api/bookmarks/refresh` answers 200 with
  the old count.
- The listing fetches one page of at most 100 open issues
  (server.js:138). Nothing pages further.

## Model

| member | source | states |
|---|---|---|
| Text.Trim | server.js:102 | the result is the slice of the input left after cutting leading and trailing characters of the ECMAScript whitespace set, and it has no such character at either end; a string already trimmed is unchanged |
| Text.SplitLines | server.js:96 | `split('\n')` gives at least one piece, and no piece holds a newline |
| Text.SplitThenJoin | server.js:96 | joining the pieces of `split('\n')` with newlines rebuilds the body |
| Text.JoinThenSplit | server.js:96 | splitting newline-joined lines that hold no newline gives the lines back |
| Text.StartsWith | server.js:101 | definition of `startsWith`: the prefix is no longer than the string and equals its opening characters |
| Text.JoinWith | server.js:196 | `join(sep)` gives the empty string for no pieces and the piece itself for one, and otherwise opens with the first piece |
| Text.ToLower | public/app.js:252 | `toLowerCase` keeps the length, leaves no ASCII upper-case letter, and keeps every other character in place |
| Text.HexNumber | public/app.js:515-517 | `parseInt(_, 16)` of k hex digits is below 16^k |
| Text.Contains | public/app.js:253 | `includes` holds exactly when the substring occurs at some index |
| Text.ToHex | server.js:291 | `toString(16)` writes lower-case hex digits, with no leading zero for a positive number, that `parseInt(_, 16)` reads back as the number |
| Text.ToHexLength | server.js:291 | a number below 16^k takes at most k hex digits |
| Text.PadStart | server.js:291 | `padStart` reaches the width with fill characters in front and keeps the string at the end |
| Text.LeadingZeros | server.js:291 | leading zeros do not change the value `parseInt(_, 16)` reads |
| Seqs.Filter | server.js:272 | `filter` keeps, in order, exactly the elements that satisfy the predicate, each as many times as it occurs, and drops every other |
| Seqs.FilterKeepsAll | public/app.js:249-263 | a filter that rejects nothing returns its input |
| Seqs.FindIndex | server.js:250 | `findIndex` is -1 when nothing matches, else the first matching index |
| Seqs.ReplaceFirst | server.js:250-253 | only the first match is overwritten; the length is kept; a miss changes nothing |
| Seqs.Any | public/app.js:258 | `some` holds exactly when some element satisfies the predicate |
| Seqs.Keys | public/app.js:252 | `map(key)` keeps the length, and entry i is the key of element i |
| Seqs.FirstOccurrencesSpec | public/app.js:311-315 | keeping an element only when its key is new gives distinct keys, covers every key, and keeps each element at the first place its key appears |
| Seqs.FirstOccurrencesInOrder | public/app.js:311-315 | the kept elements appear in the order of the input: the result is a subsequence of it |
| IssueMapper.ParseIssueBody | server.js:95-109 | the loop's `link` and `description` are the scan of the body's lines |
| IssueMapper.ScanLines | server.js:99-106 | definition of the loop's effect: a `Link: ` line sets the link to the trimmed rest after 6 characters, otherwise a `Description: ` line sets the description to the trimmed rest after 13, and any other line leaves both; a later match overwrites an earlier one |
| IssueMapper.ScanLinesTrimmed | server.js:102-104 | whatever the lines, the scanned link and description have no whitespace at either end |
| IssueMapper.ParseBody | server.js:95-109 | `parseIssueBody` scans the `split('\n')` lines of the body, and both fields come out trimmed |
| IssueMapper.LastLinkLineWins | server.js:100-102 | the link is the trimmed rest of the last `Link: ` line |
| IssueMapper.NoLinkLine | server.js:96-102 | a body without a `Link: ` line gives the empty link |
| IssueMapper.DescriptionLineIsNotLinkLine | server.js:100-104 | no line matches both prefixes, so every `Description: ` line reaches its branch |
| IssueMapper.LastDescriptionLineWins | server.js:103-104 | the description is the trimmed rest of the last `Description: ` line |
| IssueMapper.NoDescriptionLine | server.js:97-104 | a body without a `Description: ` line gives the empty description |
| IssueMapper.OtherLineIgnored | server.js:99-106 | a line with neither prefix, `Tags:` included, changes nothing |
| IssueMapper.LabelNames | server.js:120 | the tags are the label names, in label order, duplicates kept |
| IssueMapper.TransformIssue | server.js:112-126 | id is the issue number; the tags are the label names; link and description are parsed from the body, with a null body read as empty; the other fields are copied |
| IssueMapper.ProjectLabels | server.js:177 | each label becomes its name and colour, in order |
| IssueMapper.BuildIssuePayload | server.js:188-202 | no payload exactly when the title or link is missing or empty; otherwise the title is kept, the labels are the tags (or none), and the body opens with `Link: ` and the link |
| IssueMapper.JoinedTagsOneLine | server.js:196 | space-joined tags without newlines form one line |
| IssueMapper.IssueBody | server.js:192-196 | the built body opens with the `Link: ` line and a blank line and closes with the `Tags: ` line |
| IssueMapper.BodyLines | server.js:192-196 | the body is five lines: link, blank, description, blank, tags |
| IssueMapper.ScanLinkLine | server.js:101-102 | a built `Link: ` line sets the scanned link to the trimmed link |
| IssueMapper.ScanDescriptionLine | server.js:101-104 | a built `Description: ` line sets the scanned description and is not taken for a link |
| IssueMapper.ScanOtherLine | server.js:100-106 | a line with neither prefix leaves the scan unchanged |
| IssueMapper.ScanBuiltLines | server.js:192-196 | scanning those five lines gives back the link and description |
| IssueMapper.ParseFiveLines | server.js:96-106 | parsing the five newline-joined lines of a body gives back its link and description when both are trimmed and newline-free and the tags text holds no newline |
| IssueMapper.BodyRoundTrip | server.js:192-196 | parsing a built body returns the trimmed, single-line link and description it was built from |
| IssueMapper.IssueRoundTrip | server.js:198-202 | provided the link and description are trimmed and hold no newline, no tag name holds a newline, and GitHub stores the title and body as sent and keeps the labels as sent, the title, link, description and tags of the request come back from the stored issue |
| Server.TransformIssues | server.js:140 | every issue is mapped, in order: entry i is `transformIssue` of issue i, so it keeps the issue number as id |
| Server.WithoutId | server.js:272 | no entry keeps the deleted id; every other entry stays, in order and with its multiplicity |
| Server.ReplaceById | server.js:250-253 | the first entry with the id is replaced; the length is kept; a miss changes nothing |
| Server.BookmarkServer.constructor | server.js:47-48 | the cache starts empty, with `lastFetch` 0 |
| Server.BookmarkServer.CacheIsFresh | server.js:132 | definition of the cache test: not forced, something cached, and less than eight hours since the last fetch |
| Server.BookmarkServer.FetchIssues | server.js:129-149 | with the cache fresh (not forced, non-empty, under eight hours old), no request is made; otherwise the open issues are requested, a success replaces the cache and stamps `lastFetch`, a failure keeps both; the result is the cache |
| Server.BookmarkServer.GetBookmarks | server.js:154-161 | 200 with the unforced fetch's result |
| Server.BookmarkServer.RefreshBookmarks | server.js:164-171 | always requests, then 200 with the cache size, even after a failure |
| Server.BookmarkServer.CreateBookmark | server.js:184-218 | 400 with no request and no cache change when the title or link is missing; on success the new bookmark is put first and answered with 201; on failure 500 and no cache change |
| Server.BookmarkServer.UpdateBookmark | server.js:221-259 | 400 as for create; on success the first cached entry with the id is replaced; on failure 500 and no change |
| Server.BookmarkServer.DeleteBookmark | server.js:262-278 | closes the issue; on success every cached entry with the id is dropped |
| Server.LabelsReply | server.js:174-181 | always lists the labels on GitHub; 200 with each label's name and colour, or 500 with the error |
| Server.LabelColor | server.js:291 | a colour the client sent is kept as it is; otherwise the draw is written in hex and padded with zeros to at least six characters |
| Server.GeneratedColorIsHex | server.js:291 | a generated colour is six lower-case hex digits that read back as the random draw |
| Server.ZeroPadded | server.js:291 | `padStart(6, '0')` of at most six lower-case hex digits gives six hex digits with the same value |
| Server.CreateLabelReply | server.js:281-303 | 400 without a name; otherwise the label is created with the given or generated colour, answering 201 with name and colour, or 500 |
| Server.CreateThenList | server.js:212 | a bookmark created within the cache lifetime is listed first, with no new request |
| Server.DeleteThenList | server.js:272 | provided another bookmark stays cached, after a delete within the cache lifetime no listed bookmark has the id, with no new request |
| Server.FailedFirstListing | server.js:145-148 | a failing first fetch answers 200 with an empty list |
| ClientView.TagNames | public/app.js:252 | the names of the tags, in order |
| ClientView.SearchText | public/app.js:252 | the text searched opens with the title followed by a space, then holds the description, link and space-joined tag names |
| ClientView.Passes | public/app.js:249-263 | a bookmark passes exactly when an empty query or the lower-cased search text contains the query, and no tag is active or one of its tags is active |
| ClientView.VisibleBookmarks | public/app.js:249-263 | the shown list is an order-preserving subsequence holding exactly the passing bookmarks, each as often as in the list; with no query and no active tag it is the whole list |
| ClientView.LowerKeepsOccurrence | public/app.js:252-253 | lower-casing keeps an occurrence at its index |
| ClientView.TitleMatchIsShown | public/app.js:252-253 | a title containing the typed text, ignoring ASCII case, passes the stored lower-cased query |
| ClientView.TagFilterIsDisjunctive | public/app.js:257-260 | one active tag on the bookmark is enough, and activating more tags never hides it |
| ClientView.Toggled | public/app.js:340-345 | the clicked tag's membership flips, and no other name's changes |
| ClientView.ToggleTwice | public/app.js:340-345 | toggling twice restores the set |
| ClientView.FlatTags | public/app.js:311 | every tag of every bookmark is in the flattened list, and nothing else |
| ClientView.UsedTagOrder | public/app.js:310-315 | the values of `usedTagsMap` in insertion order, an order-preserving subsequence of all tags |
| ClientView.UsedTagOrderStep | public/app.js:312-314 | one loop step adds the tag exactly when its name is new |
| ClientView.UsedTagOrderSpec | public/app.js:310-315 | the map's values have distinct names, cover every name, and are first occurrences |
| ClientView.LexLe | public/app.js:316 | definition of the name order: lexicographic, character by character, a prefix first |
| ClientView.LexLeTotal | public/app.js:316 | any two names compare one way or the other |
| ClientView.LexLeTransitive | public/app.js:316 | the name order is transitive |
| ClientView.InsertByName | public/app.js:316 | insertion adds exactly the one tag |
| ClientView.InsertKeepsOrder | public/app.js:316 | insertion keeps a sorted list sorted |
| ClientView.PermutedNames | public/app.js:316 | reordering keeps the set of names |
| ClientView.InsertKeepsNamesDistinct | public/app.js:316 | inserting a tag with a new name keeps names distinct |
| ClientView.SortByName | public/app.js:316 | the sort returns a permutation of its input, sorted by name |
| ClientView.SortKeepsNames | public/app.js:316 | sorting keeps the set of names and their distinctness |
| ClientView.UsedTags | public/app.js:310-316 | the filter bar is sorted by name and a reordering of the map's values |
| ClientView.UsedTagsSortedAndDistinct | public/app.js:310-316 | the filter bar is sorted by name, and no name appears twice |
| ClientView.UsedTagsCoverEveryName | public/app.js:310-316 | every tag name on some bookmark appears in the filter bar |
| ClientView.UsedTagsAreFirstOccurrences | public/app.js:310-316 | each chip is the first tag of its name across all bookmarks' tags |
| ClientView.Suggestions | public/app.js:140-143 | suggestions are an ordered subsequence of the tags: exactly the unselected ones whose lower-cased name contains the lower-cased query, each as often as among all tags |
| ClientView.EmptyQuerySuggestsAllUnselected | public/app.js:140-143 | an empty query suggests every unselected tag |
| ClientView.OffersCreate | public/app.js:159 | "create" is offered exactly when the query is non-empty and no tag name equals it up to case |
| ClientView.ExistingNameNotOffered | public/app.js:159 | when a tag has exactly the queried name, creation is not offered |
| ClientView.Channel | public/app.js:515-517 | channel k is `parseInt` of hex characters 2k and 2k+1, so it is below 256 |
| ClientView.ContrastColor | public/app.js:514-520 | black exactly when 299 r + 587 g + 114 b exceeds 128000, white otherwise |
| ClientView.ContrastMonotone | public/app.js:514-520 | a colour at least as bright in every channel as a black-text one also gets black text |
| ClientView.ChipColor | public/app.js:286 | a missing colour becomes `666666` and a stored one is kept, so the chip colour is six hex digits when the stored colour is six hex digits or empty |
| ClientView.DefaultChipHasWhiteText | public/app.js:286-287 | a chip without a colour gets white text |
| ClientView.ReplaceAll | public/app.js:507 | without the character the string is unchanged; each output character is a kept input character or part of the replacement |
| ClientView.ReplaceAllSingle | public/app.js:507 | on one character, `c` becomes the replacement and any other character stays |
| ClientView.ReplaceAllAppend | public/app.js:507 | replacement works piecewise over concatenation |
| ClientView.EscapeAttribute | public/app.js:506-508 | no quote of either kind remains, and a string without quotes is unchanged |
| ClientView.EscapeAttributeIsPerCharacter | public/app.js:506-508 | the two passes equal escaping each character on its own: `'` to `&#39;`, `"` to `&quot;` |
| ClientView.FindById | public/app.js:363 | `find` gives the first bookmark with the id, or nothing when none has it |
| ClientView.WithoutId | public/app.js:387 | after delete no entry has the id, and the rest stay in order with their multiplicity |
| ClientView.ReplaceById | public/app.js:442-443 | only the first entry with the id changes, the length is kept, and a miss changes nothing |
| ClientView.SaveNotice | public/app.js:453 | the message says "updated" exactly for an edit |
| ClientView.SaveNoticeAsWritten | public/app.js:453 | the message says "created" exactly when `editingBookmark` is null at the moment it is read |
| ClientApp.ChosenNamesStep | public/app.js:466-468 | adding a name to the chooser appends it unless already chosen |
| ClientApp.ChosenNames | public/app.js:466-468 | the chooser's names after adding the names one at a time and refusing one already held, an order-preserving subsequence of them |
| ClientApp.ChosenNamesSpec | public/app.js:373 | the chooser holds each of the bookmark's tag names exactly once |
| ClientApp.MapHoldsAdd | public/app.js:312-314 | adding a new name keeps the map and its insertion order in step |
| ClientApp.FindFirstWithId | public/app.js:363 | `find` returns the first bookmark carrying the id |
| ClientApp.App.constructor | public/app.js:2-7 | the globals start empty, with nothing under edit |
| ClientApp.App.Visible | public/app.js:249-263 | the list drawn from the current state: a subsequence of the loaded bookmarks, each passing the filter |
| ClientApp.App.LoadBookmarks | public/app.js:188-197 | a reply replaces the list; a failure keeps it and shows an error |
| ClientApp.App.LoadTags | public/app.js:200-208 | a reply replaces the tag list; a failure is silent |
| ClientApp.App.SetSearchQuery | public/app.js:23 | the stored query is the lower-cased input |
| ClientApp.App.ClearSearch | public/app.js:72-78 | the query becomes empty |
| ClientApp.App.ClearAllFilters | public/app.js:91-104 | no query, no active tag, every bookmark shown, success message |
| ClientApp.App.ToggleTagFilter | public/app.js:340-349 | the active set becomes the toggled set |
| ClientApp.App.RenderFilterTags | public/app.js:307-316 | the map loop and sort give exactly the used-tag list |
| ClientApp.App.OpenCreateModal | public/app.js:352-359 | nothing under edit, and an empty chooser |
| ClientApp.App.AddSelectedTag | public/app.js:461-478 | a name already chosen is ignored; otherwise it is appended; the chooser never holds a duplicate |
| ClientApp.App.AddTagFromInput | public/app.js:38-43 | the trimmed input, unless blank, is added like a choice |
| ClientApp.App.EditBookmark | public/app.js:362-377 | an unknown id changes nothing; otherwise the first bookmark with the id is under edit, and the chooser holds its tag names once each, in order |
| ClientApp.FormFields | public/app.js:409-419 | the form is refused exactly when the trimmed title or link is blank; otherwise it sends the trimmed fields and the chosen tags |
| ClientApp.RequestFor | public/app.js:424-436 | an update of the edited bookmark's id exactly when one is under edit, otherwise a create, carrying the form data |
| ClientApp.AfterSave | public/app.js:441-446 | a new bookmark goes first and the rest follow unchanged; an edit replaces the first entry with its id and keeps the length |
| ClientApp.App.CloseModal | public/app.js:399-403 | nothing is under edit afterwards |
| ClientApp.App.Save | public/app.js:422-457 | corrected behaviour: the request matches the edit state. On success the list takes the saved bookmark, the form closes, the tags reload, and the message says which case happened. On failure nothing changes and an error is shown |
| ClientApp.App.SaveAsWritten | public/app.js:422-457 | as written: the same request and state changes as `App.Save`, but because `closeModal()` clears `editingBookmark` before line 453 reads it, every successful save says "created", an edit included |
| ClientApp.App.SubmitForm | public/app.js:406-458 | corrected behaviour: a blank trimmed title or link gives an error, no request and no change. Otherwise the accepted fields are saved as `App.Save` states |
| ClientApp.App.DeleteBookmark | public/app.js:380-396 | nothing without confirmation; on success every entry with the id is dropped, keeping the rest in order with their multiplicity; on failure nothing changes and an error is shown |
| ClientApp.ToggleTwiceShowsAll | public/app.js:340-345 | clicking a chip twice on a loaded page shows the whole list again |
| ClientApp.EditThenSave | public/app.js:441-453 | corrected behaviour: saving an edit replaces the entry in place, keeps the length, and reports "updated" |
| ClientApp.EditReportedAsCreated | public/app.js:441-453 | as written: the same edit replaces the entry in place, yet the message is "Bookmark created successfully!", not the "updated" one |
| ClientApp.DeleteThenShow | public/app.js:387 | after a delete, no shown bookmark has the id, and every other one is shown as often as it was loaded |

## Left out

- `githubRequest` (server.js:64-92), with its headers, JSON parsing and
  status check. Each request is an `Upstream` outcome given to the handler.
- Pagination: the listing takes whatever one request returns. A repository
  with more than 100 open issues is not modelled.
- `Date.now()` is the parameter `now`. The drawn whole number
  `Math.floor(Math.random() * 16777215)` is the parameter `roll` of
  `Server.LabelColor`.
- Logging to file and console, `.env` loading, start-up checks that call
  `process.exit`, Express wiring, static files and signal handlers: process
  plumbing.
- Concurrency: each handler runs as one atomic step. Interleavings of
  `await`s are not modelled.
- Request bodies hold strings or nothing. A non-string `title`, `link` or
  `name` (a number, `false`) is not modelled.
- The `:id` route parameter is modelled as the integer it denotes. Loose
  JavaScript equality, under which `"05" == 5`, is not modelled.
- Text.ToLower: lower-cases ASCII letters only. JavaScript's `toLowerCase`
  also folds other scripts.
- ClientView.LexLe: compares code point by code point. `localeCompare` uses
  the locale's collation.
- Strings are sequences of Unicode scalar values. JavaScript strings are
  UTF-16 code units.
- ClientView.ContrastColor: requires six hex digits. For other inputs,
  `parseInt` may give `NaN` or read only a prefix; that is not modelled.
  GitHub label colours and the `666666` default always qualify.
- The DOM: markup templates, `escapeHtml`, `formatDate`,
  `showNotification`, the modal and the dropdown's visibility, `setView`,
  the filter-info text and the clear button.
- The chooser is the list of chosen names. The DOM read-back in
  `getSelectedTags` (trim, drop `×`) is treated as giving those names back.
  Names with surrounding whitespace or a `×` are not modelled.
- `removeSelectedTag` removes one DOM element. It is not modelled.
- The client's `init` and `refreshBookmarks` only sequence `loadBookmarks`
  and `loadTags` around a request. They are not modelled as methods of their
  own.
- `migrate-data.js` and `bin/cli.js`: HTTPS requests, prompts, delays and
  process management.

## Findings

| source | as written | input that shows it | evidently intended | confidence | as-written member | corrected member |
|---|---|---|---|---|---|---|
| public/app.js:453 | the success message tests `editingBookmark`, which `closeModal()` at line 448 has already set to `null` | edit any bookmark and save it successfully | "Bookmark updated successfully!" after an edit, "created" after a create | high; not executed | ClientApp.App.SaveAsWritten | ClientApp.App.Save |
