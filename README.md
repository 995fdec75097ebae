# API documentation pipeline of the Bazel registry UI

This project models, in Dafny, how the registry UI turns a module
version's Stardoc archive into its API documentation page. There are three
parts.

- **Ingestion** (`data/stardoc.ts`). The server fetches a gzipped tar
  archive and decodes every regular `.binaryproto` entry as a protobuf
  `ModuleInfo`. It skips entries that fail, strips protobuf-internal `$`
  fields from each message (`toPlainObject`), and resolves with the records
  sorted by file path. Modules: `PlainValues` (values.dfy) and `Ingest`
  (ingest.dfy).
- **Rendering** (`components/Stardoc.tsx`).
  - `generateAnchorId` gives every section its element id. Modules: `Anchors`
    (anchors.dfy) and `Basics` (basics.dfy).
  - The renderer decides which sections a record produces, in which order,
    and under which ids. Module: `Renderer` (renderer.dfy), with records in
    `DocInfo` (docinfo.dfy).
  - The copy-link button writes `origin + path + "#" + anchor` to the
    clipboard and shows a checkmark for two seconds. Module: `Renderer`.
  - Markdown code blocks pick a highlighting language from
    `language-(\w+)`, with starlark, bazel and bzl aliased to python.
    Links starting with `http` or `//` open in a new tab. Module:
    `Markdown` (markdown.dfy).
- **Navigation** (`components/StardocNav.tsx`). The sidebar builds a
  two-level table of contents. It computes ids with its own copy of the
  anchor function. A controller keeps the highlighted section, the expanded
  entries and the URL fragment in step with clicks, history navigation and
  scrolling. Module: `Nav` (nav.dfy).

The central results:

- Ingestion keeps exactly the accepted entries. It is insensitive to entry
  order whenever file paths are distinct. It always yields records sorted
  by file.
- Stripping is idempotent. It keeps key order and every non-internal
  binding.
- Both anchor functions agree on every input. Every sidebar entry names an
  element the renderer emits, with one exception: a file entry whose
  record has no module docstring.
- Anchors are their own file anchor, so a copied link's fragment names the
  same element again.
- The scroll handler's reverse loop finds the last section that has
  started.
- While a programmatic navigation is settling, scroll events cannot move
  the highlight.

Foreign code is passed in as a parameter, because the model cannot see
it:

- the HTTP response;
- decompression, as `gunzip`;
- tar extraction, as `untar`;
- protobuf decoding, as `decode`;
- the DOM, as a map from element id to `offsetTop`;
- the clipboard outcome, as `writeSucceeds`.

Every `setTimeout` becomes a pending entry that a "timer fired" method
consumes.

Behaviour of the source worth knowing:

- Every character outside `[a-zA-Z0-9-_]` becomes `-` in an anchor, dots
  included: a Stardoc file named `pkg/defs.binaryproto` gets the anchor
  `pkg-defs-binaryproto`.
- A link counts as external exactly when its href starts with the literal
  text `http` or `//`. So `http_archive.md` opens in a new tab
  (`Markdown.ExternalLinkExamples`), while a `mailto:` link does not.
- A failed fetch, a non-OK status or a failed body read resolve the call
  with `[]`.
- A tar error rejects the call (`Rejected(ArchiveCorrupt)`). The inner
  promise is returned without `await`, so the outer `catch` does not see
  its rejection.
- A body that does not decompress neither resolves nor rejects the call
  (`Unsettled`). Only `extract` has error listeners; the gunzip stream's
  error escapes as an uncaught exception. See "## Findings".
- Calling the fetch outside the server rejects the call.

## Model

| member | source | states |
|---|---|---|
| Basics.OrDefault | components/StardocNav.tsx:48 | `s \|\| default`: the string itself when non-empty, the default when empty |
| Basics.LessEqTotal | data/stardoc.ts:90 | the file-path order used for sorting compares every pair of paths |
| Basics.LessEqTransitive | data/stardoc.ts:90 | the file-path order is transitive |
| Basics.LessEqAntisymmetric | data/stardoc.ts:90 | two paths ordered both ways are equal |
| Basics.LessEqReflexive | data/stardoc.ts:90 | every path is ordered before itself |
| PlainValues.ToPlain | data/stardoc.ts:13-39 | the result has no `$` key and no byte array at any depth; null, undefined and primitives come back unchanged; well-formed objects (distinct keys) stay well-formed |
| PlainValues.BytesToNumbers | data/stardoc.ts:18-20 | a byte array becomes an array of plain numbers |
| PlainValues.PlainItems | data/stardoc.ts:22-24 | an array keeps its length and each element is converted in place |
| PlainValues.PlainProperties | data/stardoc.ts:26-35 | no kept key starts with `$`, every kept value is plain, the kept keys are exactly the non-`$` keys, and distinct keys stay distinct |
| PlainValues.PlainPropertiesLookup | data/stardoc.ts:28-34 | looking up a key in the result gives nothing for a `$` key and the converted original value otherwise |
| PlainValues.PlainPropertiesKeepOrder | data/stardoc.ts:28-34 | the result's keys are the original keys without `$` keys, in the original order |
| PlainValues.PlainFixedPoint | data/stardoc.ts:13-39 | an already plain value is returned unchanged |
| PlainValues.PlainPropertiesFixedPoint | data/stardoc.ts:26-35 | an already plain object's entries are returned unchanged |
| PlainValues.ToPlainIdempotent | data/stardoc.ts:13-39 | converting twice is converting once |
| PlainValues.BytesRoundTrip | data/stardoc.ts:18-20 | the number array of a byte array reads back as exactly those bytes |
| Ingest.CollectEntries | data/stardoc.ts:57-87 | the entry loop pushes, in archive order, the converted message of every regular `.binaryproto` entry that streams and decodes, and nothing else |
| Ingest.CollectedConcat | data/stardoc.ts:57-87 | the records of two runs of entries are the records of each run, concatenated |
| Ingest.SkippedEntryLeavesNoTrace | data/stardoc.ts:79-86 | an entry that is filtered out, fails to stream or fails to decode contributes nothing, and processing continues with the next entry |
| Ingest.CollectedSound | data/stardoc.ts:67-76 | every collected record is the converted message of some accepted entry |
| Ingest.CollectedComplete | data/stardoc.ts:67-76 | every accepted entry's converted message is collected |
| Ingest.CollectedRemoveAt | data/stardoc.ts:57-87 | taking one entry out of the archive takes out exactly its contribution |
| Ingest.CollectedPermutation | data/stardoc.ts:57-87 | reordering the archive's entries only reorders the collected records |
| Ingest.InsertPermutes | data/stardoc.ts:90 | inserting adds exactly the inserted record |
| Ingest.InsertKeepsSorted | data/stardoc.ts:90 | inserting a record into a sorted list keeps it sorted by file and adds exactly that record |
| Ingest.SortByFileCorrect | data/stardoc.ts:90 | the sort result is ordered by file path and is a permutation of its input |
| Ingest.SortedUnique | data/stardoc.ts:90 | two sorted permutations of the same records with distinct file paths are equal |
| Ingest.SortOrderIndependent | data/stardoc.ts:90 | two lists holding the same records, no two with the same file path, sort to the same list |
| Ingest.ArchiveOrderIndependent | data/stardoc.ts:57-91 | reordering the archive's entries does not change the resolved list, as long as no two collected records share a file path |
| Ingest.FetchDocsList | data/stardoc.ts:41-107 | rejects when called client-side; `[]` when fetch throws, the status is not OK or the body cannot be read; never settles when the body does not decompress; rejects when the tar stream is corrupt; otherwise resolves with the collected records sorted by file |
| Ingest.FetchDocsListSettled | data/stardoc.ts:93-102 | with the gunzip error handled as well: every call settles, and a body that does not decompress rejects like a corrupt tar; all other outcomes as written |
| Ingest.HtmlBodyNeverSettles | data/stardoc.ts:97-102 | an HTML page served with status 200 leaves the call unsettled |
| Ingest.HtmlBodyRejectsWhenHandled | data/stardoc.ts:93-102 | the same response rejects once the gunzip error is handled |
| Anchors.LeadingSlashes | components/Stardoc.tsx:19 | counts exactly the maximal run of `/` at the start |
| Anchors.StripLeadingSlashes | components/Stardoc.tsx:19 | `^\/+` removed: the input after its leading slashes |
| Anchors.ReplaceUnsafe | components/Stardoc.tsx:20 | same length; each character outside `[a-zA-Z0-9-_]` becomes `-`, the others stay |
| Anchors.ToLower | components/Stardoc.tsx:21 | same length; each character lower-cased |
| Anchors.CleanNameAt | components/Stardoc.tsx:18-21 | the cleaned name has the input's length minus its leading slashes, and each character is the lower-cased, substituted input character |
| Anchors.FileAnchorCharset | components/Stardoc.tsx:16-27 | a file anchor contains only `[a-z0-9_-]` |
| Anchors.KindAnchor | components/Stardoc.tsx:23-26 | any other kind's anchor is the kind, a dash and the file anchor of the name |
| Anchors.LeadingSlashIgnored | components/Stardoc.tsx:19 | a leading slash does not change an anchor |
| Anchors.AnchorIsFixedPoint | components/Stardoc.tsx:16-27 | an anchor cleaned again as a file name is unchanged |
| Anchors.CaseCollision | components/Stardoc.tsx:16-27 | names differing only in case share an anchor |
| Anchors.CrossKindCollision | components/Stardoc.tsx:16-27 | the file `rule-x` and the rule `x` share an anchor |
| Anchors.FileAnchorExample | components/Stardoc.tsx:16-27 | `/p/D.bzl` becomes `p-d-bzl`: inner slashes and dots are substituted too |
| Markdown.WordPrefix | components/Stardoc.tsx:58-59 | `(\w+)` captures the longest prefix of word characters |
| Markdown.FirstMatch | components/Stardoc.tsx:58-59 | the match is at the leftmost position where `language-\w` occurs, or there is none |
| Markdown.CapturedLanguageSpec | components/Stardoc.tsx:58-59 | the captured language is empty exactly when nothing matches; otherwise it is the maximal word run following `language-` at the leftmost match |
| Markdown.AliasSpec | components/Stardoc.tsx:62-64 | starlark, bazel and bzl never reach the highlighter; the result is python exactly for those three and python |
| Markdown.StripTrailingNewline | components/Stardoc.tsx:75 | one trailing newline is removed when present, nothing otherwise |
| Markdown.RenderCode | components/Stardoc.tsx:57-88 | highlighted exactly for a block with a language, using that language and the text without its final newline; otherwise the text unchanged as plain code |
| Markdown.RenderLink | components/Stardoc.tsx:89-104 | the href is kept; target `_blank` and rel `noopener noreferrer` are set exactly for external links |
| Markdown.ExternalLinkExamples | components/Stardoc.tsx:91-92 | `https:` and `//` links are external, and so is `http_archive.md`; fragments, `mailto:`, empty and absent hrefs are not |
| Renderer.RenderedSections | components/Stardoc.tsx:153-442 | the module section appears exactly when the module docstring is non-empty, under the file anchor and headed by the file; each block appears exactly when its list is non-empty, with one element per entry in declaration order under `generateAnchorId(kind, name)` |
| Renderer.CopyUrlFragment | components/Stardoc.tsx:34 | the fragment of a copied link is the anchor id when origin and path carry no `#` |
| Renderer.CopyLinkButton.constructor | components/Stardoc.tsx:30-31 | starts without the checkmark, timers or clipboard text |
| Renderer.CopyLinkButton.Click | components/Stardoc.tsx:33-42 | a successful write puts the page URL with the anchor on the clipboard, shows the checkmark and starts a reset timer; a failed write changes nothing |
| Renderer.CopyLinkButton.ResetTimerFired | components/Stardoc.tsx:38 | the checkmark goes away when a timer fires |
| Nav.TrimSlashesAgrees | components/StardocNav.tsx:31 | the sidebar's leading-slash removal equals the renderer's on every string |
| Nav.DashifyAgrees | components/StardocNav.tsx:32 | the sidebar's character substitution equals the renderer's on every string |
| Nav.LowerAgrees | components/StardocNav.tsx:33 | the sidebar's lower-casing equals the renderer's on every string |
| Nav.AnchorsAgree | components/StardocNav.tsx:29-39 | the sidebar's anchor function equals the renderer's on every input |
| Nav.FileItemShape | components/StardocNav.tsx:48-55 | a file entry is level 0 under the renderer's file anchor with caption `file \|\| 'Module'`; it has one child per function, rule, provider and aspect, each a level-1 leaf |
| Nav.ChildrenAreLeaves | components/StardocNav.tsx:58-99 | every child entry is a level-1 entry without children |
| Nav.FunctionItemsAt | components/StardocNav.tsx:58-66 | one function entry per function, in order, under the renderer's anchor |
| Nav.RuleItemsAt | components/StardocNav.tsx:69-77 | one rule entry per rule, in order, under the renderer's anchor |
| Nav.ProviderItemsAt | components/StardocNav.tsx:80-88 | one provider entry per provider, in order, under the renderer's anchor |
| Nav.AspectItemsAt | components/StardocNav.tsx:91-99 | one aspect entry per aspect, in order, under the renderer's anchor |
| Nav.FileItemChildren | components/StardocNav.tsx:58-99 | children are functions, then rules, providers and aspects, in declaration order, named after their entity and linked to the renderer's anchor for it |
| Nav.NavStructureShape | components/StardocNav.tsx:42-108 | one entry per record in input order, none for no records |
| Nav.ModuleIdRendered | components/Stardoc.tsx:167-173 | the module section's element id is the sidebar file entry's id, and it exists only with module text |
| Nav.NavMatchesRenderedIds | components/StardocNav.tsx:42-108 | the element ids rendered for a record are the file entry's id (only when the docstring is non-empty) followed by all its children's ids, in order |
| Nav.NavTargetsOnPage | components/StardocNav.tsx:42-108 | every sidebar child, and every file entry whose record has module text, names an element of the page |
| Nav.RecordIdsOnPage | components/Stardoc.tsx:153-442 | every element of every record is on the page |
| Nav.FlattenLeaves | components/StardocNav.tsx:234-241 | a list of entries without children flattens to itself |
| Nav.FlattenNav | components/StardocNav.tsx:230-244 | the scroll handler scans the generated sidebar as each record's file entry followed by its children, record by record |
| Nav.VisibleLeaves | components/StardocNav.tsx:262-310 | leaf entries show exactly themselves |
| Nav.ExpandedShowsChildren | components/StardocNav.tsx:262-310 | a file entry's children are shown exactly when it is expanded, and toggling flips that |
| Nav.LastStarted | components/StardocNav.tsx:246-255 | the index of the last flattened entry whose element starts at or above the scroll position, or -1 when none has |
| Nav.FindLastStarted | components/StardocNav.tsx:248-255 | the reverse loop with `break` returns exactly that index |
| Nav.Toggled | components/StardocNav.tsx:195-203 | membership of the toggled id flips and nothing else changes |
| Nav.ToggleTwice | components/StardocNav.tsx:195-203 | toggling twice restores the expanded set |
| Nav.StardocNav.constructor | components/StardocNav.tsx:133-169 | empty state, then the hash handler runs once: a deep link highlights its section and schedules a scroll |
| Nav.StardocNav.HandleHashChange | components/StardocNav.tsx:144-159 | a non-empty fragment becomes the active section and schedules a scroll; an empty one changes nothing |
| Nav.StardocNav.PopState | components/StardocNav.tsx:162-165 | back/forward navigation updates the hash and runs the hash handler |
| Nav.StardocNav.HashScrollTimerFired | components/StardocNav.tsx:149-157 | the delayed scroll happens only when the element exists |
| Nav.StardocNav.ScrollToSection | components/StardocNav.tsx:173-192 | for an existing element: raises the navigation guard, highlights it, scrolls to it, pushes `#id` and starts the settle timer; otherwise no change |
| Nav.StardocNav.NavResetTimerFired | components/StardocNav.tsx:188-190 | the settle timer lowers the guard |
| Nav.StardocNav.ToggleSection | components/StardocNav.tsx:195-203 | the expanded set is toggled at the id; nothing else changes |
| Nav.StardocNav.HandleNavItemClick | components/StardocNav.tsx:206-220 | an entry with children toggles and schedules a scroll; a leaf scrolls at once |
| Nav.StardocNav.ClickScrollTimerFired | components/StardocNav.tsx:213-215 | the delayed scroll of a click is a scroll to that entry |
| Nav.StardocNav.HandleScroll | components/StardocNav.tsx:224-256 | ignored while the guard is up; otherwise the last started flattened entry becomes active, and nothing changes when none has started |
| Nav.NavigationHoldsAgainstScrolling | components/StardocNav.tsx:173-256 | after navigating to a section, any number of scroll events leave it highlighted until the settle timer fires; the next scroll then recomputes the highlight |

## Findings

| source | as written | input that shows it | evidently intended | confidence | as-written member | corrected member |
|---|---|---|---|---|---|---|
| data/stardoc.ts:97-102 | `.on('error', reject)` follows the last `.pipe`, so it listens on `extract` only. `pipe` does not forward the gunzip stream's errors, so such an error escapes as an uncaught exception and the promise never settles | a response with status 200 whose body is an HTML page (`<!DOCTYPE ...`), not gzip | a body that does not decompress rejects the call, as a corrupt tar does (lines 93-95) | high; not executed | Ingest.FetchDocsList, Ingest.HtmlBodyNeverSettles | Ingest.FetchDocsListSettled, Ingest.HtmlBodyRejectsWhenHandled |

## Left out

- Network, gunzip, tar parsing and protobuf decoding are foreign code. `FetchDocsList` takes the response and the functions `gunzip`, `untar` and `decode`. A decode failure is `None`, and so is an error thrown while converting the message.
- Sort order: `localeCompare` is replaced by lexicographic order on characters. Locale collation is not modelled. `Ingest.SortByFile` is a stable insertion sort; the JavaScript sort is also stable.
- `Ingest.FileOf`: a record without a string `file` field sorts as the empty path. Decoded protobuf messages always carry one.
- Numbers are unbounded integers. Floating point is not modelled: only byte values reach a number through the conversion.
- Strings are sequences of characters. JavaScript regular expressions work on UTF-16 code units, so a character outside the Basic Multilingual Plane becomes two dashes in an anchor in the source but one in the model.
- Markup, CSS classes, icons, the markdown parser and the syntax highlighter's output are left out. Docstrings are carried as the text handed to the markdown renderer. Attribute type tables are not modelled beyond their rows' names and docStrings.
- The clipboard failure branch logs to the console; the log is not modelled.
- The DOM is a map from element id to offset. Real timing, smooth scrolling and the registration and removal of event listeners are not modelled. Timers fire in whatever order the caller chooses.
- `copiedItems` in `StardocNav` is declared but never used, and the `header` entry type is never generated. Neither is modelled.
- `Nav.StardocNav.HandleScroll` uses the state of the latest render. The stale closures React might hold between renders are not modelled.
- The page around the documentation (`pages/docs/[module].tsx`, `data/moduleStaticProps.ts`, header, footer) is not part of this model.
