# YouTube Video Blocker — a Dafny model of its blocking logic

The extension hides recommended YouTube videos. It hides a video when its title
contains one of the user's rules, ignoring case, or when its video ID is on the
user's blocked list. The model covers two scripts:

- **The content script** (`content.js`). It decides which elements are blocked and
  marks each element it has processed. It also handles the context-menu
  "block this video" request, which adds an `{ id, title }` entry to the list.
- **The settings page** (`options.js`). It parses the two text areas (one rule
  per line; one `id: title` per line) and writes the saved lists back into
  them. It also counts the rules and IDs, saves both lists, and runs the rule
  tester over sample titles.

Modules:

- `Wrappers`: `Option`.
- `Strings`: the JavaScript string operations the scripts use, written out.
  These are `trim` with the ECMAScript whitespace set, `toLowerCase`,
  `includes`, `split` on one character and `join`.
- `Blocklist`: the video-ID pattern `[a-zA-Z0-9_-]{11}` and the list entries.
- `Content`: the content script.
  - The page state is the class `VideoBlocker`: its rules, its blocked list
    and the on/off switch.
  - Each recommended video is a `VideoElement` whose `marker` is its
    `data-blocker-processed` attribute.
- `Options`: the settings page.
  - The page is the class `OptionsManager`. Its fields are the text areas,
    the two counters, the status line and the two synced settings.

DOM lookups are replaced by their results:

- `VideoElement` holds the text of an element's title node and the `href` of
  its link, each `None` when the node is missing.
- `BlockVideo` receives the text of the title node it would have found.
- `OptionsManager` holds the values of the stored settings.

## Model

| member | source | states |
|---|---|---|
| `Strings.Trim` | content.js:382 | `trim` leaves no whitespace at either end, only shortens, keeps only characters of its input, and gives the empty string exactly when the input is all whitespace |
| `Strings.TrimSlice` | content.js:382 | `trim` returns a contiguous slice of its input, and only whitespace lies before and after that slice |
| `Strings.Lower` | content.js:383 | `toLowerCase` keeps the length and lower-cases each character in place (ASCII letters only, see below) |
| `Strings.Split` | options.js:171 | `split` on one character always yields at least one field, and no field contains the separator |
| `Strings.JoinSplit` | options.js:171 | `Join` (`join`) with the separator undoes `Split`: joining the fields gives back the original string |
| `Strings.SplitJoin` | options.js:76 | splitting a `join` of separator-free fields gives back those fields |
| `Strings.Contains` | content.js:383 | `includes` holds exactly when the needle occurs at some index of the haystack |
| `Content.BlankRuleNeverMatches` | content.js:381-384 | a rule that is empty or only whitespace never matches any title |
| `Content.RuleMatchesIff` | content.js:381-384 | the per-rule predicate `RuleMatches`: a non-blank rule matches exactly when its trimmed lower-case form occurs in the lower-case title |
| `Content.RuleMatchIgnoresTitleCase` | content.js:383 | lower-casing the title first does not change whether a rule matches |
| `Content.AnyRuleMatches` | content.js:381-384 | `rules.some(...)` holds exactly when some rule of the list matches |
| `Content.HasBlockedId` | content.js:384 | the blocked-list lookup holds exactly when some entry has that id |
| `Content.ShouldBlock` | content.js:380-384 | an element is blocked exactly when some rule matches its title, or it has a video ID and some entry carries that ID |
| `Content.NothingBlockedWithoutRules` | content.js:284 | with no rules and no blocked IDs nothing would be blocked, so the early exit of processVideos loses nothing |
| `Content.IdMatchAt` | content.js:376 | a capture at one index is found exactly when `v=` (or `/shorts/` when allowed) followed by an ID starts there, and it is the 11 characters after that prefix |
| `Content.FirstIdMatch` | content.js:376-377 | every capture the search returns is a valid video ID |
| `Content.FirstIdMatchIsLeftmost` | content.js:376-377 | the search finds nothing exactly when the pattern matches at no index, and otherwise returns the capture at the least matching index |
| `Content.UrlVideoId` | content.js:99 | the ID taken from a context-menu URL is a valid video ID |
| `Content.UrlVideoIdIsLeftmostCapture` | content.js:99 | the ID of a context-menu URL is the 11 characters after the leftmost `v=` that is followed by an ID, and there is none when no `v=` is |
| `Content.HrefVideoId` | content.js:372-378 | the ID taken from a watch or shorts link is a valid video ID; without a link there is none |
| `Content.ElementTitle` | content.js:358-369 | the title used is the trimmed text of the title node, so it is non-empty and trimmed, and it is absent exactly when the node is missing or blank |
| `Content.NextMarker` | content.js:345-398 | a processed element is never left unmarked; `blocked` stays `blocked`; otherwise it becomes `no-title` exactly when there is no title, and `blocked` (else `checked`) exactly when the element should be blocked |
| `Content.NextMarkerIdempotent` | content.js:347 | checking an element a second time under the same rules leaves its marker unchanged |
| `Content.EntryTitle` | content.js:127-134 | the stored title is the trimmed title text, or `Unknown Title` when none was found or it is blank; it is never empty |
| `Content.VideoBlocker.CheckAndBlockVideo` | content.js:345-398 | the element's new marker is `NextMarker` of its old one; an element already `blocked` is not looked at again |
| `Content.VideoBlocker.ProcessVideos` | content.js:283-343 | when the extension is off, or there are no rules and no blocked IDs (the predicate `Active` is false), no element changes; otherwise every unmarked element (every element when forced) gets its next marker and the others keep theirs |
| `Content.VideoBlocker.BlockVideo` | content.js:96-134 | other messages change nothing; a URL without an ID is rejected with `Invalid video ID`; an ID already listed is rejected with `Video already blocked`; otherwise exactly one entry is appended; earlier entries are untouched and distinct IDs stay distinct |
| `Blocklist.VideoIdIsPlain` | options.js:181 | a string matching `^[a-zA-Z0-9_-]{11}$` has no whitespace, `:` or newline, so trimming and splitting leave it whole |
| `Options.NonBlankTrimmed` | options.js:172-173 | every result is non-empty and trimmed |
| `Options.NonBlankTrimmedLength` | options.js:169-174 | there are never more rules than lines |
| `Options.NonBlankTrimmedAppend` | options.js:169-174 | lines keep their order: the result for two blocks of lines is the first block's followed by the second's |
| `Options.NonBlankTrimmedMember` | options.js:169-174 | a string is a result exactly when it is non-empty and some line trims to it |
| `Options.NonBlankTrimmedFixed` | options.js:172-173 | lines that are already trimmed and non-empty come back unchanged |
| `Options.NonBlankTrimmedEmptyIff` | options.js:266-274 | the typed titles yield nothing exactly when the whole text area is blank |
| `Options.ParseRules` | options.js:169-174 | every rule is non-empty, trimmed and a single line |
| `Options.ParseRulesRoundTrip` | options.js:169-174 | writing the rules into the text area with `join('\n')` and parsing again gives the same rules |
| `Options.ParseIdLine` | options.js:179-185 | a line yields an entry exactly when its first `:`-field, trimmed, is a video ID; that field is the id and the title is never empty |
| `Options.TrimAll` | options.js:180 | each `:`-part is trimmed, in place and in order |
| `Options.ParsedTitleParts` | options.js:180-182 | a parsed title other than `Unknown Title` splits at `:` into exactly the trimmed fields after the id; the fallback `Unknown Title` is used exactly when nothing but blanks follows the id (or the trimmed fields after the id join to that same text) |
| `Options.MissingTitleIsUnknown` | options.js:181-182 | a line holding only an id, or an id, one `:` and blanks, gets the title `Unknown Title` |
| `Options.ParseIdLines` | options.js:177-186 | every entry kept by the line-by-line parse has a valid ID and a non-empty title |
| `Options.ParseIdLinesMember` | options.js:176-187 | an entry is in the list exactly when some line parses to it |
| `Options.ParseBlockedVideoIds` | options.js:176-187 | every parsed entry has a valid video ID and a non-empty title; `saveRules` runs the same pipeline inline at options.js:201-210 |
| `Options.ParseFormattedEntry` | options.js:80 | an entry written by `FormatEntry` as `${id}: ${title}` parses back to itself when its title is one line whose `:`-parts are trimmed |
| `Options.FormatEntriesRoundTrip` | options.js:80 | a list of such entries written by `FormatEntries` (loadSettings) parses back to the same list |
| `Options.ParsedEntryWellFormed` | options.js:179-185 | every entry a line without a newline parses to is one that formatting and parsing reproduce |
| `Options.BlockedIdsLoadSaveStable` | options.js:176-187 | loading a parsed list into the text area and saving it again stores the same list |
| `Options.ColonSpaceTitleChanges` | options.js:180-182 | a title `a: b` written by loadSettings comes back as `a:b`, because every `:`-part is trimmed |
| `Options.CountedIds` | options.js:190-193 | every ID updateStats counts is a valid video ID |
| `Options.CountedIdsAgree` | options.js:188-196 | the counter's pipeline finds the same IDs, in the same order, as the parse that is saved, so the count equals the saved list's length |
| `Options.TesterAgreesWithContentScript` | options.js:286 | on parsed rules, the tester's match and the content script's rule match agree |
| `Options.MatchedRulesMember` | options.js:284-289 | of `MatchedRules` and its test `TesterMatch`: a rule is reported for a title exactly when it is one of the rules and occurs in the title, ignoring case |
| `Options.MatchedRulesAppend` | options.js:284-289 | matched rules are reported in rule order |
| `Options.ResultLines` | options.js:291-296 | there is one result line per tested title |
| `Options.BlockedTitlesLength` | options.js:300-302 | no more titles are blocked than tested, so the allowed count is never negative |
| `Options.BlockedTitlesMember` | options.js:283-297 | of `BlockedTitles`: a title is counted as blocked exactly when it is tested and some rule matches it |
| `Options.TesterBlocksAsContentScript` | options.js:283-297 | on the saved rules, the tester blocks exactly the titles the content script would block by a title rule |
| `Options.TallyTitles` | options.js:280-297 | the loops collect exactly `BlockedTitles` and `ResultLines`: the blocked titles and one result line (`ResultLine`, a cross with the matched rules or a tick) per title, in title order |
| `Options.TypedTitlesNonEmpty` | options.js:266-278 | a non-blank text area always yields at least one title, so the samples are used only for a blank one |
| `Options.OptionsManager.LoadSettings` | options.js:66-100 | the saved rules are written one per line, the saved entries as `${id}: ${title}` lines, and a blank tester area is filled with the samples; a missing setting leaves its area as it was |
| `Options.OptionsManager.UpdateStats` | options.js:188-196 | the counters are the number of parsed rules and the number of entries the saved parse yields |
| `Options.OptionsManager.SaveRules` | options.js:198-218 | both parsed lists are stored, the counters equal their lengths, and the status names the kind of save |
| `Options.OptionsManager.TestRules` | options.js:254-326 | with no rules it reports `No rules to test` and changes nothing else; otherwise it tests the typed titles (the samples, written into the area, when none are typed), blocked + allowed = tested, and the detailed results and the status are the lines `testRules` builds, with the counts rendered by `SummaryLine` |

## Left out

- Strings.Lower: `toLowerCase` is modelled on the ASCII letters only. Other letters keep their case, so non-ASCII rules match case-sensitively in the model.
- Content.VideoBlocker.ProcessVideos: only the untargeted call is modelled. The `targetVideoId` selection, its returned `processed` flag and the debugging log depend on DOM queries.
- Content.VideoBlocker.CheckAndBlockVideo: hiding the element, removing it and drawing the placeholder are DOM effects. Only the decision and the marker are modelled.
- Content.VideoBlocker.BlockVideo: the DOM search for the title is replaced by its result. The write to `chrome.storage.sync` and the re-processing retries that follow are left out.
- Options.OptionsManager.LoadSettings: the theme, placeholder, debug and counter settings it also loads are left out. The model keeps only the two lists and the tester area.
- The DOM, mutation observers, timers, `requestAnimationFrame` and the debounced storage-change listener are not modelled. They schedule the modelled operations. The storage-change listener also reassigns `rules`, `blockedVideoIds` (skipping the content script's own writes, recognised by `lastUpdateInstance`) and `extensionEnabled` from storage; the model leaves these as free field values of `VideoBlocker`.
- `chrome.storage` reads and writes are not modelled as I/O. The stored values are fields of the classes, and errors from storage (the `catch` branches) are not modelled.
- The runtime message plumbing is not modelled: `toggleExtension`, `unblockAllVideos` and the `blockedVideosCount` counter. Neither are the popup, the background page, `init-theme.js`, the theme switch, debug mode or the status-message timer.
