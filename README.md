# Swagger UI sidebar glue: a verified model of its decision rules

`app.js` is the browser glue around a Swagger UI page. It builds a navigation
sidebar from the rendered operations and filters it with a search box. It
watches the widget's DOM and rebuilds the sidebar when nodes are added, and it
shows the selected operation's response examples as status tabs in a side
panel. This project models the deterministic rules inside that glue, with
the DOM reduced to plain records and sequences:

- `escapeHtml`, the sanitizer for headings, methods and paths (`Escape`);
- `extractResponseExamples`, in `Responses`. Its rules are the status
  normalisation, the non-empty-body filter, the fallback labels `200`, `ex1`,
  `ex2`, … taken from the raw block index, and the first-wins de-duplication
  by status;
- the search box's `onInput` handler, in `Search`. Operation links and menu
  sections are classes whose `shown` flag the handler updates in place;
- `scheduleRebuild` and the MutationObserver callback, in `Scheduler`. It is
  both a state machine over the `rebuildScheduled` flag and a class that
  holds that flag;
- the response panel of `updateRightPanel`, in `Panel`. This covers the
  resolution order (argument, then last clicked block, then first open block),
  the method badge rule, the tabs built one per example, and the tab click
  handler;
- `removeZeroCounts`, in `Sidebar`, which removes zero-valued `.count`
  labels from the menu in place.

`Text` holds the JavaScript string built-ins these rules use: `trim` (with
ECMAScript's white-space set), `toLowerCase`, `includes`, and the decimal
rendering of an index in a template literal. `Dom` holds the record types the
DOM queries are reduced to.

Each imperative piece is a method proved against a specification function.
Each of those functions has lemmas that state the promised property: the
escape round trip, first occurrences kept in order, coalescing of rebuild
requests, exactly one active tab, and a method badge whose variant ignores
the method's case.

Two behaviours of the code are easy to misread:

- `status` is trimmed after the first present, non-empty status text is
  picked, not before. A text made only of white space therefore wins over a
  later real code, trims to empty, and becomes `"200"`.
  `ResponseExamplesByCase.BlankStatusTextShadowsLaterCode` shows this.
- The method badge's class is `method-pill ` followed by whatever method text
  was read, lower-cased. It falls back to `default` only when that text is
  empty. There is no list of recognised HTTP methods.

## Model

| member | source | states |
|---|---|---|
| Text.Trim | app.js:158 | `String.prototype.trim`: neither end of the result is white space, and it is no longer than the input |
| Text.TrimIsSlice | app.js:158 | the trimmed string is a slice `s[a..b]` of the input with only white space before `a` and after `b` |
| Text.TrimIdempotent | app.js:158 | trimming twice is trimming once |
| Text.TrimEmptyIffBlank | app.js:158 | a string trims to empty exactly when it is all white space |
| Text.ToLower | app.js:158 | `String.prototype.toLowerCase`, character by character; the length is kept |
| Text.ToLowerIdempotent | app.js:158 | lower-casing twice is lower-casing once |
| Text.Contains | app.js:166 | `String.prototype.includes`: the query occurs at some position of the text |
| Text.Decimal | app.js:248 | the decimal numeral of an index, as the template literal renders it: non-empty, all digits |
| Text.DecimalInjective | app.js:248 | different indices have different numerals |
| Escape.Entity | app.js:20 | each of `& < > " '` is replaced by an entity that starts with `&`; every other character stands for itself |
| Escape.EscapeHtml | app.js:19-21 | the escaped text is at least as long as the input and contains no raw `<`, `>`, `"` or `'` |
| Escape.EscapeHtmlAppend | app.js:20 | the global replace works character by character: escaping a concatenation concatenates the escapes |
| Escape.EscapeHtmlIdentity | app.js:19-21 | a text free of the five significant characters is returned unchanged |
| Escape.UnescapeEntity | app.js:20 | each entry of the replacement table is undone by an independent left-to-right entity decoder |
| Escape.UnescapeEscapeHtml | app.js:19-21 | decoding the escaped text gives back the original, so escaping loses nothing |
| Escape.EscapeHtmlInjective | app.js:19-21 | two texts that escape alike are equal |
| Responses.FirstTruthy | app.js:232-236 | the `\|\|` chain gives the first present, non-empty status text, and every earlier one is absent or empty; it gives "" exactly when no text is present and non-empty |
| Responses.FirstDigitRun | app.js:237 | `/(\d{3})/` gives the leftmost position of three consecutive digits at or after `from`, or none when there is no such run |
| Responses.NormalizeStatus | app.js:232-238 | the status is never empty; it is the leftmost three-digit run of the trimmed first text when there is one; otherwise it is the trimmed text, or "200" when that is empty |
| Responses.PrimaryExample | app.js:239-241 | a response node yields at most one example, exactly when it has a code element whose trimmed text is non-empty; it carries the normalised status, `application/json` and the trimmed text |
| Responses.PrimaryExamples | app.js:231-242 | the examples of the primary pass, node by node in order |
| Responses.FallbackLabel | app.js:248 | the block at raw index 0 is labelled `200`, every later one `ex` followed by its index in decimal |
| Responses.FallbackLabelFirst | app.js:248 | only the block at raw index 0 is labelled `200`, and every label has at least three characters |
| Responses.LabelBlocks | app.js:246-249 | one example per non-empty trimmed block text, labelled by the block's raw index |
| Responses.FallbackExamples | app.js:244-249 | the fallback examples of the blocks' trimmed texts |
| Responses.Candidates | app.js:244 | the fallback runs only when the primary pass found nothing |
| Responses.Dedup | app.js:252-257 | keeps an example unless an earlier kept one has its status |
| Responses.ResponseExamples | app.js:228-258 | what `extractResponseExamples` returns: the de-duplicated candidates |
| Responses.ExtractResponseExamples | app.js:228-258 | the result equals `ResponseExamples(op)`, that is `Dedup(Candidates(op))`, and no two results share a status |
| Responses.ScanResponseNodes | app.js:229-242 | the primary loop pushes exactly the examples of the nodes that have a non-empty trimmed code text, in node order |
| Responses.ScanCodeBlocks | app.js:244-250 | the fallback loop pushes exactly the labelled examples of the non-empty trimmed blocks, in block order |
| Responses.KeepFirstPerStatus | app.js:252-257 | the `seen`-set filter computes the de-duplication function, and its result has pairwise-distinct statuses |
| Responses.DedupIsFirstOccurrences | app.js:252-257 | de-duplication equals the reference: the entries at first-occurrence positions, in their original order |
| Responses.FirstOccurrenceKept | app.js:252-257 | the first occurrence of every status is among the kept entries |
| Responses.DedupStatuses | app.js:252-257 | no status is lost: the kept entries have exactly the candidates' set of statuses |
| Responses.DedupDistinct | app.js:252-257 | no two kept entries share a status |
| Responses.DedupSubset | app.js:252-257 | every kept entry is one of the candidates |
| Responses.DedupOfDistinct | app.js:252-257 | candidates whose statuses are already distinct pass the filter unchanged |
| Responses.SeenIffNotFirst | app.js:253-255 | a status is already in `seen` at position `i` exactly when `i` is not the first occurrence of that status |
| Responses.ExamplesAreJson | app.js:239-249 | every extracted example carries the content type `application/json` |
| Responses.PrimaryShape | app.js:239-241 | every primary example has a non-empty status, content type `application/json`, and a non-empty, already trimmed body |
| Responses.LabelBlocksShape | app.js:246-249 | every fallback example has a non-empty label, the JSON content type, and a non-empty body taken from the blocks |
| Responses.FallbackShape | app.js:244-249 | every fallback example has a non-empty status, the JSON content type, and a non-empty, trimmed body |
| Responses.CandidatesShape | app.js:239-249 | whichever pass produced them, all candidates have that shape |
| Responses.LabelBlocksByIndex | app.js:246-249 | the block at raw index `idx` yields its labelled example if and only if its trimmed text is non-empty, so empty blocks still use up an index |
| Responses.LabelBlocksComplete | app.js:246-249 | every block whose trimmed text is non-empty has its labelled example emitted |
| Responses.LabelBlocksSound | app.js:246-249 | every emitted example is the labelled example of a block whose trimmed text is non-empty |
| Responses.FallbackByIndex | app.js:244-249 | the same statement, in terms of the raw block texts: a block yields `Example(label(idx), json, trim(block))` exactly when the trimmed text is non-empty, and nothing else is produced |
| Responses.FallbackLabelInjective | app.js:248 | different raw indices get different labels (`200`, `ex1`, `ex2`, …) |
| Responses.LabelBlocksDistinct | app.js:246-249 | the fallback examples have pairwise-distinct statuses |
| Responses.FallbackNeverDeduplicated | app.js:244-257 | de-duplication never drops a fallback example |
| ResponseExamplesByCase.DuplicateStatusKeepsFirst | app.js:228-258 | nodes labelled 200, 200 and 404 give two examples, and the first node's body is kept for 200 |
| ResponseExamplesByCase.UnlabelledBlocksGetFallbackLabels | app.js:244-257 | two code blocks and no response node give statuses `200` and `ex1`, with trimmed bodies |
| ResponseExamplesByCase.BlankStatusTextShadowsLaterCode | app.js:232-238 | a blank first status text is chosen before trimming and yields "200", even when a later text holds `404` |
| Search.Query | app.js:158 | the query is the input's value trimmed and lower-cased |
| Search.OpMatches | app.js:165-166 | an operation link matches when the query is empty or its lower-cased text contains the query |
| Search.HeadingMatches | app.js:161-170 | a heading matches when the query is empty or the lower-cased heading, empty when absent, contains it |
| Search.SectionMatches | app.js:170-171 | a section is visible when its heading matches or one of its links matches |
| Search.OnInput | app.js:157-172 | after the handler, an operation link is shown iff the trimmed, lower-cased query is empty or contained in its lower-cased text; a section is shown iff its heading matches or one of its links does |
| Search.FilterSection | app.js:160-171 | one section's loop: each link is shown iff it matches, and the section is shown iff its heading matches or some link matched (`anyOpMatch`) |
| Search.BlankQueryShowsAll | app.js:158-171 | a query that is all white space shows every operation and every section |
| Search.QueryEmptyIffBlank | app.js:158 | the query is empty exactly when the typed value is all white space |
| Search.OpMatchesIgnoresCase | app.js:165-166 | two operation texts with the same lower-case form match the same queries, and lower-casing a text beforehand does not change whether it matches |
| Search.NarrowingQueryHides | app.js:165-166 | an operation that matches a longer query matches every prefix of it |
| Search.NarrowingQueryHidesSections | app.js:170-171 | a longer query never reveals a section that a prefix of it hid |
| Scheduler.AddsNodes | app.js:344 | a batch asks for a rebuild when some record adds nodes |
| Scheduler.OpensOperation | app.js:345-347 | a record opens an operation when it is a `class` change on an element with both `opblock` and `is-open` |
| Scheduler.RefreshTargets | app.js:345-350 | one refresh per opening record, in order, targeting the last clicked block when there is one and otherwise the opened block |
| Scheduler.Schedule | app.js:328-330 | a pending rebuild makes the call a no-op; otherwise the flag is raised and one callback is queued |
| Scheduler.Work | app.js:331-333 | the queued work runs one rebuild and lowers the flag |
| Scheduler.ScanBatch | app.js:342-352 | the loop decides to rebuild iff some record adds nodes, and requests one panel refresh per record that opened an operation block, in order |
| Scheduler.RefreshTargetsChoice | app.js:345-350 | with a block clicked before, every refresh targets that block; otherwise each targets a block the batch reports as opened |
| Scheduler.RunConsistent | app.js:326-339 | every sequence of batches and idle callbacks keeps the flag raised exactly while one callback is queued, so at most one rebuild is pending |
| Scheduler.BatchesCoalesce | app.js:328-330 | batches arriving with no callback run in between run no rebuild; they leave one rebuild pending iff one was pending or some batch added nodes |
| Scheduler.RebuildRunsOnce | app.js:328-339 | from idle, any number of batches (at least one adding nodes) followed by the callback run exactly one rebuild, and the scheduler ends idle |
| Scheduler.RebuildScheduler.constructor | app.js:326 | the scheduler starts idle, with nothing queued |
| Scheduler.RebuildScheduler.ScheduleRebuild | app.js:328-339 | a call while a rebuild is pending changes nothing; otherwise the flag is raised and one callback is queued |
| Scheduler.RebuildScheduler.RunWork | app.js:331-333 | running the work lowers the flag and empties the queue, whether or not the rebuild threw, and passes the exception on |
| Scheduler.RebuildScheduler.OnMutations | app.js:341-354 | the observer callback moves the scheduler by one batch step and returns the refreshes of `ScanBatch` |
| Panel.MethodClass | app.js:280 | the badge class is `method-pill` followed by the lower-cased method, or by `default` when the method is empty |
| Panel.MethodLabel | app.js:281 | the badge text is the method, or `OP` when it is empty |
| Panel.SummaryText | app.js:278-279 | a summary element's trimmed text, or empty when the element is absent |
| Panel.MethodClassIgnoresCase | app.js:280 | the badge's variant follows the method case-insensitively: two methods that lower-case alike get the same class |
| Panel.MethodBadgeFallback | app.js:280-281 | an empty method gives the class `method-pill default` and the label `OP`; a non-empty one is shown as read, with its lower-cased form in the class |
| Panel.OnlyAtExactlyOne | app.js:302-307 | when `i` names a tab, exactly one tab is active |
| Panel.ResponsePanel.UpdateRightPanel | app.js:260-292 | the operation shown is the argument, else the last clicked block, else the first open block; with none, the badge reads `OP` with class `method-pill default`, the path and tabs are cleared, and the content type and path title are left alone |
| Panel.ResponsePanel.ShowOperation | app.js:278-318 | the panel shows the trimmed method (lower-cased in the class; `OP`/`default` when empty) and path, and the extracted examples as tabs with tab 0 selected and its content type and body shown; with no example it shows the placeholder and `application/json` |
| Panel.ResponsePanel.ShowSummary | app.js:278-283 | the badge class is `method-pill` plus the lower-cased trimmed method, or `default` when it is empty; the badge text is the method, or `OP`; the path text and title are the trimmed path |
| Panel.ResponsePanel.ShowExamples | app.js:288-318 | with no example, the placeholder and `application/json` are shown; otherwise one tab per example with tab 0 active and pressed, and example 0's content type and body shown |
| Panel.ResponsePanel.AddTabs | app.js:294-314 | one tab per example, in order; only tab 0 is active and `aria-pressed` |
| Panel.ResponsePanel.ClickTab | app.js:301-309 | after clicking tab `i`, exactly tab `i` is active and pressed, the content type and code are example `i`'s, and the badge, path and tabs are unchanged |
| Sidebar.IsZeroCount | app.js:53 | a count label shows zero when its trimmed text is exactly `0` |
| Sidebar.KeepNonZero | app.js:52-54 | the count labels that survive pruning, in their original order |
| Sidebar.SidebarMenu.RemoveZeroCounts | app.js:49-55 | the in-place removal leaves exactly the labels that do not trim to "0", in their original order |
| Sidebar.SidebarMenu.VisitLabel | app.js:52-54 | one turn of the loop: the label under the cursor is removed when it trims to "0", and the labels stay the pruned prefix followed by the unvisited rest |
| Sidebar.KeepNonZeroAppend | app.js:52-54 | pruning works label by label: pruning a concatenation concatenates the pruned parts, so survivors keep their order |
| Sidebar.KeepNonZeroCounts | app.js:52-54 | every label that does not trim to "0" keeps its multiplicity, and every label that does is gone |

## Left out

- The timing behaviour is not modelled:
  - the `debounce` wrapper and its 200 ms delay on the search box;
  - the 80 ms and 200 ms delays before a panel refresh;
  - the choice between `requestIdleCallback` and `setTimeout`.

  The scheduler models only the queued callback, and `OnMutations` returns the requested refreshes instead of calling `updateRightPanel`.
- `waitForSwaggerReady`, the Swagger UI bootstrap, and the loader and error panels are not modelled: they involve polling against the clock and a foreign library.
- `buildSidebar` is not modelled: it is HTML templating and listener wiring. The rebuild is reduced to a counter in the scheduler.
- `bindGlobalOpClicks` is not modelled. The last clicked block is a parameter of `UpdateRightPanel` and `ScanBatch`.
- The wiring of the MutationObserver and the event listeners is not modelled. This includes `wireSearch` adding a fresh `input` listener on every rebuild.
- The clipboard, toasts, expand/collapse, and `hljs.highlightElement` are not modelled: they are I/O and a library call.
- `findResponsesWrapper` is not modelled because nothing calls it.
- CSS selector queries are abstracted, including which element is the "first open" block. So is the difference between `innerText` and `textContent`. Each operation block arrives as a record of its summary texts, response nodes and code blocks.
- The early returns for a missing `#sidebar-menu`, search box or widget root are not modelled; the model assumes those elements exist. `updateRightPanel`'s reliance on its panel elements existing is likewise assumed.
- `Panel.ResponsePanel.UpdateRightPanel` does not model the `try`/`catch` around the extraction, because the modelled extraction cannot throw.
- `Text.ToLower` maps only the ASCII and Latin-1 capitals. Other Unicode case mappings and length-changing mappings are not modelled.
- Strings are sequences of characters, not UTF-16 code units.
- `Escape.EscapeHtml` takes a string; the `String(str)` conversion of other values is not modelled.
- `Panel.ResponsePanel.ClickTab` does not model the click handler capturing its example by closure. The handler's example is read from the tab list, which holds the same values.
