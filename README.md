# Send Proposal bot: a Dafny model of its control logic

The bot drives a Chromium page of a partner platform. It clicks every
"Send Proposal" button on the page, fills in the form each click opens and
submits it, until a target count is reached. Along the way it scrolls to load
more rows, and it reconnects to the browser after repeated failures. This
project models the decision logic of that loop in both revisions of the
program: `main_updated.py` (the current one, `Current` below) and `main.py`
(the earlier one, `Earlier`). It also models the pieces the loop relies on:

- the browser manager's connection handling, its failure classification and
  its safe click;
- the two marker attributes that keep a button from being counted or clicked
  twice;
- the ten-step click retry up a button's ancestors and the search for the
  row's tab label;
- the proposal form: template term, tag, date, comment, submit;
- the comment-template store and the settings merge.

The browser, the page and the operator are not part of the model's code. Each
is an oracle given as a parameter. Whatever a DOM lookup found or raised is
`Errors.Query`. What each connection attempt does is
`nat -> Browser.ConnectAttempt`. What the k-th button lookup, scroll or button
meets is indexed by k in `Engine.Env`. Exceptions are modelled by their
message, and every classification is the program's own substring test on
the lower-cased message.

Modules, in dependency order:

- `Text`: Python's `strip`, `rstrip`, `lower`, `in` and `re.sub(r'\s+', ' ', ·)` on strings.
- `Errors`: the connection-loss classifier and the `find_element(s)` wrappers.
- `Templates`: the `TemplateManager` store, as a class.
- `Settings`: the `load_settings` merge and `_safe_name`.
- `Dom`: the page's buttons and their `data-counted` and `data-clicked` markers, as a class.
- `Terms`: label normalisation and the two revisions' template-term choice.
- `Modal`: the proposal form handler and its steps.
- `Climb`: the click retry and the tab-label walk, as loops.
- `Browser`: `BrowserManager`, as a class.
- `Engine`: `ProposalSender` and `send_proposals`, as a class with the main loop.

Where the two revisions differ, a member takes a `Revision`. The earlier
revision's behaviour is stated next to the current one's.

## Model

| member | source | states |
|---|---|---|
| Text.TrimEndFacts | main_updated.py:1102 | `rstrip`: the result is a prefix ending in a non-space, and only whitespace was removed |
| Text.TrimStartFacts | main_updated.py:1102 | `lstrip`: the result is a suffix starting with a non-space, and only whitespace was removed |
| Text.CollapseWsSpacing | main_updated.py:906 | after collapsing, the only whitespace is a plain space, no two spaces are adjacent, and the first character keeps its kind |
| Errors.FindElements | main_updated.py:444-486 | the list, or the empty list for a swallowed failure (a named class or a connection-loss message); any other exception propagates unchanged |
| Errors.FindElement | main_updated.py:400-442 | the same classification for a single element, with "not found" as the swallowed result |
| Errors.PropagatedIsNotTransient | main_updated.py:470-486 | a failure that leaves `find_elements` never carries a connection-loss marker |
| Errors.TransientIgnoresCase | main_updated.py:794 | the marker test gives the same answer for a message and its lower-cased form |
| Errors.MarkerAnywhereIsTransient | main_updated.py:794 | a message holding "disconnect", "context" or "target closed" in any letter case, with any text around it, is classified as connection loss |
| Templates.NextId | main_updated.py:157-164 | 1 for an empty list; otherwise above every id and one more than some id |
| Templates.NextIdIsFresh | main_updated.py:166-181 | appending a template with `NextId` keeps all ids distinct |
| Templates.StoredName | main_updated.py:170-172 | a name given is kept; the stored name is never empty |
| Templates.Without | main_updated.py:199-212 | the remaining templates are exactly those with another id |
| Templates.WithoutConcat | main_updated.py:205 | deleting keeps the order of the rest: the filter of a concatenation is the concatenation of the filters |
| Templates.WithoutFirstIsFirstOther | main_updated.py:205-208 | the first template left, the one made active when the active one is deleted, is the first in the list with another id |
| Templates.UpdatedListKeepsIds | main_updated.py:183-197 | length and ids are kept; only the first entry with the id changes, and nothing changes when the id is absent |
| Templates.WithoutPresentId | main_updated.py:199-212 | deleting a present id from a list with unique ids removes exactly one entry |
| Templates.WithoutAbsentId | main_updated.py:199-212 | deleting an absent id changes nothing |
| Templates.DanglingActiveFallsBack | main_updated.py:133-146 | an active id naming no template gives the first template's content |
| Templates.TemplateStore.GetActiveTemplate | main_updated.py:133-146 | the active template's content, else the first template's, else the empty text |
| Templates.TemplateStore.GetActiveTemplateInfo | main_updated.py:148-155 | present exactly when some template has the active id; then it is the first such template |
| Templates.AfterSave | main_updated.py:93-131 | what the next load sees of a saved field: the value written when the save is seen (always in the current revision, whose loads ask the shared manager first); in the earlier revision the old value when the file could not be opened, and the default when a truncated file no longer parses |
| Templates.TemplateStore.AddTemplate | main_updated.py:166-181 | returns the save's success; the record the next load sees has one more entry with a fresh id and its stored name, active on request, as `AfterSave` says; unique ids are preserved |
| Templates.TemplateStore.UpdateTemplate | main_updated.py:183-197 | true iff the id exists and the save succeeds; an absent id changes nothing and saves nothing; otherwise the record changes as `UpdatedList` and `AfterSave` say |
| Templates.TemplateStore.DeleteTemplate | main_updated.py:199-212 | refuses, saving nothing, when at most one template is left; otherwise returns the save's success and the record loses every entry with the id, activating the first remaining template if the deleted id was active, as `AfterSave` says |
| Templates.TemplateStore.SetActive | main_updated.py:214-222 | records the id without checking it, as `AfterSave` says, and returns the save's success |
| Settings.LoadSettings | main_updated.py:60-68 | the defaults when the file cannot be read; otherwise every loaded key overrides, and the other defaults stay |
| Settings.LoadSettingsIdempotent | main_updated.py:60-68 | merging a merged result again gives the same settings |
| Settings.ReplaceUnsafeRuns | main_updated.py:374 | the result holds only `[a-zA-Z0-9-_.]`, is no longer than the input, and is non-empty when the input is |
| Settings.SafeName | main_updated.py:372-375 | at most 80 characters, all safe, and non-empty when the stripped reason is |
| Settings.ReplaceUnsafeRunsKeepsSafe | main_updated.py:374 | a safe text is left as it is |
| Settings.SafeNameIdempotent | main_updated.py:372-375 | a sanitised name is its own sanitised name |
| Dom.Marked | main_updated.py:1273-1287 | the attribute becomes "true" when it already is or can be written; nothing else changes |
| Dom.MarkedIdempotent | main_updated.py:1273-1287 | marking twice is marking once |
| Dom.MarkedMonotone | main_updated.py:1273-1287 | marking never moves a button back, and writes only "true" |
| Dom.Candidates | main_updated.py:678-683 | exactly the found buttons whose text contains "Send Proposal" |
| Dom.NotClicked | main_updated.py:687-689 | exactly the candidates not marked clicked |
| Dom.ScanRaisesOnlyCounted | main_updated.py:685-694 | the scan changes only counted markers, and only to "true" |
| Dom.ScanAvailableIsNotClicked | main_updated.py:685-694 | the available buttons are exactly the candidates not marked clicked, in order |
| Dom.ScanCountsFreshOnce | main_updated.py:685-694 | the number newly counted is the number of distinct fresh candidates, however often a button is listed |
| Dom.ScanSettles | main_updated.py:685-694 | after a scan every candidate is settled, and settled buttons stay settled |
| Dom.ScanOfSettledIsQuiet | main_updated.py:685-694 | a scan over settled buttons changes and counts nothing |
| Dom.ScanIdempotent | main_updated.py:685-694 | scanning the same buttons again counts nothing and leaves the same buttons available |
| Dom.ScanTouchesOnlyCandidates | main_updated.py:685-694 | the scan leaves every button that is not a candidate exactly as it was |
| Dom.CandidatesKeptByScan | main_updated.py:678-694 | the scan keeps the texts the filter reads, so the same lookup finds the same candidates afterwards |
| Dom.AvailableOnPage | main_updated.py:678-694 | every button the scan leaves available is on the page |
| Dom.MarkersKeptByMark | main_updated.py:1273-1287 | marking loses no "true" marker and keeps every text |
| Dom.MarkersKeptTransitive | main_updated.py:646-827 | the markers-kept relation composes across loop steps |
| Dom.Page.Load | main_updated.py:534-552 | a scroll appends the newly loaded rows and keeps the existing ones |
| Dom.Page.MarkButtonState | main_updated.py:1273-1287 | true iff the marker already is "true" or can be written; the page changes only at that button, as `Marked` says |
| Dom.ScanSummary | main_updated.py:685-694 | the partition loop raises only counted markers, leaves the unclicked candidates available, counts the fresh ones once, and counts no more than it leaves available |
| Dom.Page.FilterCandidates | main_updated.py:678-683 | the text filter keeps exactly the found buttons whose text contains "Send Proposal", in order |
| Dom.Page.ScanOne | main_updated.py:685-694 | one candidate: a clicked button is dropped, any other is kept, and it is counted exactly when it was fresh |
| Dom.Page.MarkCandidates | main_updated.py:685-694 | the partition loop computes `ScanFrom`, as `ScanSummary` describes |
| Dom.Page.Scan | main_updated.py:677-694 | only counted markers rise; exactly the unclicked candidates are available; the count is the number of distinct fresh candidates and at most the number available |
| Terms.TrailingDigits | main_updated.py:905 | the length of the maximal digit run at the end |
| Terms.StripCountSuffix | main_updated.py:905 | the result is a prefix; when something was removed, it does not end in whitespace |
| Terms.DesiredTerm | main_updated.py:904 | the configured term stripped, or the default when it is empty |
| Terms.CountSuffixRemoved | main_updated.py:905 | `ws "(" digits ")" ws` at the end is removed together with the whitespace before it |
| Terms.CountedLabelNormalisesToLabel | main_updated.py:995-1005 | an option showing the label with a count normalises to the label and matches it |
| Terms.FirstExactItem | main.py:694-697 | the first dropdown item with an element below it whose space-normalised text is exactly the label; none when no item has one |
| Terms.EarlierRejectsCountedLabel | main.py:694-713 | a label with a count, as an element's text or an ellipsis text, passes neither of the earlier revision's exact tests |
| Terms.EarlierItemTest | main.py:694-697 | the earlier item test reads the elements below an item: one whose only inner element shows the label with a count is skipped, one that keeps label and count in separate elements is selected |
| Terms.BareCountMatchesEverything | main_updated.py:1005 | an option that is only a count normalises to the empty text, which matches any desired term |
| Terms.UniqueMatchNeedsNoOperator | main_updated.py:1006-1010 | exactly one match in the open dropdown is clicked whatever the operator would answer |
| Terms.OperatorOnlyWhenAmbiguous | main_updated.py:1011-1038 | the operator is asked only when the open dropdown does not have exactly one match, and the answer is one of its options |
| Terms.EllipsisPickIsLoose | main_updated.py:1052-1064 | the last fallback picks one of the form's ellipsis texts, and its normalised text equals or contains the desired one |
| Modal.TagOption | main_updated.py:1088-1100 | the preferred option element's text when present, else the first listed item |
| Modal.InputTag | main_updated.py:1073-1114 | succeeds iff input, dropdown and option are there and the option passes the tag test; a mismatch raises a message naming both texts; every other failure raises |
| Modal.SelectDate | main_updated.py:1116-1155 | true only when the date button is found, with a cell whose trimmed text is tomorrow's day or the text locator's hit |
| Modal.InputComment | main_updated.py:1157-1187 | types the content given, or the active template when it is empty; nothing when both are empty; something whenever one is non-empty and the box works |
| Modal.SubmitProposal | main_updated.py:1189-1223 | clicks iff one of the three locators finds a Send Proposal button and nothing raises |
| Modal.ClickUnderstand | main_updated.py:1225-1257 | true only when nothing raised; a button found by the first locator is always clicked |
| Modal.Caught | main_updated.py:893-899 | an exception carrying a connection-loss marker is re-raised, every other one gives false |
| Modal.FinishForm | main_updated.py:888-891 | the date, comment and submit steps follow the steps already taken, and the handler returns true |
| Modal.WaitForIframe | main_updated.py:1259-1271 | the wait ends at the first lookup that finds the iframe; it times out exactly when every lookup finds nothing or has its failure swallowed; an exception that leaves it never carries a connection-loss marker |
| Modal.HandleModal | main_updated.py:874-899 | only connection-loss exceptions leave the handler; without the iframe no step runs and the result is false |
| Modal.SubmitOnlyWhenCompleted | main_updated.py:874-899 | the handler returns true exactly when its last step is the submit step |
| Modal.NoSubmitUnlessCompleted | main_updated.py:874-899 | every path that does not return true stops before the submit step |
| Modal.FormRun | main_updated.py:881-899 | the form after the iframe: the term step comes first, and only connection-loss exceptions leave it |
| Modal.AfterTerm | main_updated.py:885-899 | the form from the tag step on keeps the steps already taken as a prefix and re-raises only connection-loss exceptions |
| Modal.AfterTermEnds | main_updated.py:885-899 | from the tag step on the form either returns true with the submit step last, or stops right after the tag step |
| Modal.FormSubmitsOnlyWhenCompleted | main_updated.py:881-899 | whatever the term step found, the form returns true exactly when it reached the submit step, and no other path reaches it |
| Modal.FormTagFailureAborts | main_updated.py:885-899 | after a chosen term, a quiet tag failure ends the form with false after the tag step |
| Modal.FormIgnoresDateAndComment | main_updated.py:888-891 | the date and comment results change neither the outcome nor the submit step of the form |
| Modal.CompletedDespiteFailedSubmit | main_updated.py:890-891 | the handler returns true even when no submit button is found |
| Modal.TagFailureAborts | main_updated.py:885-899 | a tag step failing without a connection-loss marker ends the form before the date step, with false |
| Modal.CountedOptionMatchesTab | main_updated.py:1102-1104 | an option showing the tab's text with a count passes the tag test |
| Modal.DateAndCommentDoNotMatter | main_updated.py:888-891 | the results of the date and comment steps change neither the outcome nor the submit step |
| Modal.EarlierIgnoresTerm | main.py:614-638 | in the earlier revision the term step's result changes no later step and not the outcome |
| Modal.AfterTermAppends | main_updated.py:885-891 | the steps already taken only prefix the rest of the form |
| Modal.CurrentStopsAtUnchosenTerm | main_updated.py:881-883 | the current revision stops at an unchosen term with "template_term_not_found: <term>", re-raised only when the term carries a connection-loss marker |
| Climb.AttemptFailure | main_updated.py:746-767 | a working click meets no exception; in the current revision a no-layout-box failure is covered by the ancestor's click; in the earlier revision the click goes through `Browser.SafeClick`, and its false becomes "点击按钮失败" |
| Climb.ClickClimb | main_updated.py:743-791 | the retry loop computes `ClimbOutcome` |
| Climb.ClimbFacts | main_updated.py:743-791 | a click happens at the first working level after quiet failures; a quiet exception leaves only after ten failures, and only in the current revision |
| Climb.ClimbClicksFirstWorkingLevel | main_updated.py:743-791 | the button is clicked at the first ancestor whose attempt works, within ten attempts |
| Climb.EarlierClimbRaisesOnlyTransient | main.py:512-541 | the earlier retry raises only connection-loss failures; after ten quiet failures it gives up silently |
| Climb.CurrentClimbRaisesAfterTenFailures | main_updated.py:783-788 | in the current revision a quiet failure leaves the retry only from the tenth attempt; running out of ancestors ends it silently |
| Climb.NoRectFallbackClicks | main_updated.py:756-765 | a no-layout-box failure with a working ancestor click counts as a click in the current revision, and not in the earlier one |
| Climb.SelectedTabValue | main_updated.py:853-872 | the tab walk computes `SelectedTab`, the found label stripped, and never raises |
| Climb.UnlabelledLevelsSkipped | main_updated.py:855-866 | levels without a label are passed over |
| Climb.NearestLabelWins | main_updated.py:855-866 | the nearest labelled ancestor within twenty levels gives the tab, stripped |
| Climb.UnlabelledWalkFallsBack | main_updated.py:866-869 | without a label on the walk, only the page-wide lookup decides |
| Browser.ChosenTab | main_updated.py:288-292 | the current revision prefers the "impact" tab and falls back to the latest tab; the earlier revision takes the latest tab |
| Browser.ReconnectFromFacts | main_updated.py:276-297 | a tab is chosen iff one of the three attempts answers, and then the first one that answered decides |
| Browser.ReconnectUsesThreeAttempts | main_updated.py:281 | attempts after the third never matter |
| Browser.SafeClick | main_updated.py:488-522 | never raises: the earlier revision's click (main.py:319-329, used by the earlier click retry through `Climb.AttemptFailure`) works iff nothing raises; the current one reports the helper's result, or retries a no-layout-box failure by JavaScript |
| Browser.BrowserManager.IsConnected | main_updated.py:299-301 | connected iff a tab is held; `Init` and `Reconnect` state their effect on it |
| Browser.BrowserManager.Init | main_updated.py:260-274 | true iff the attempt answers; the tab is the one chosen, and a failure leaves it unchanged; connected after a success, and a failure leaves the connection state as it was |
| Browser.BrowserManager.Reconnect | main_updated.py:276-297 | true iff one of three attempts answers; then the tab is the one chosen and the browser connected, otherwise tab and connection state unchanged |
| Engine.CountsAppend | main_updated.py:770 | appending one event adds one click for a press and one scroll for a scroll that worked |
| Engine.PressesConcat | main_updated.py:646-827 | counts add up over concatenated traces, and the trace invariants are kept |
| Engine.QuietFormFailureIsContained | main_updated.py:769-781 | after a click, only a connection-loss exception from the form leaves the button; the click counts and the pending count drops |
| Engine.TermNotFoundDoesNotStopBatch | main_updated.py:881-883 | the "term not found" error stops only that form; it never reaches the outer handler written to re-raise it, and the batch goes on |
| Engine.EarlierEscapesEndBatch | main.py:543-553 | in the earlier revision every exception that leaves a button ends the batch |
| Engine.ProposalSender.constructor | main_updated.py:606 | the term is the configured one, or the default, stripped |
| Engine.ProposalSender.HandleButton | main_updated.py:740-802 | one button: counters, batch end, event, scroll flag and page marking are as `RunButton` and `AfterButton` say |
| Engine.BatchFromOk | main_updated.py:726-802 | to the end of a batch: within the target, no scroll, at most one error, the pending count never grows, the scroll flag only with nothing pending, one press event per click, the trace's error count equal to the counter, and no marker lost |
| Engine.BatchHandlesInOrder | main_updated.py:726-802 | the batch handles a prefix of the available buttons, in order, one event per button from the loop's next button run on; it stops short only at the target or after an error from a page-refresh exception |
| Engine.ScrollTurnOk | main_updated.py:705-713 | a scroll with nothing pending keeps the round's bookkeeping: one scroll event, counted only when it worked, an error otherwise |
| Engine.BatchTurnOk | main_updated.py:719-827 | a round with buttons keeps its bookkeeping and ends the loop only at the target |
| Engine.AfterScanTurnOk | main_updated.py:705-827 | after the scan the round keeps its bookkeeping, from a cleared error count when buttons are available |
| Engine.ScanTurnOk | main_updated.py:677-827 | a round whose query answered keeps its bookkeeping and ends the loop only at the target |
| Engine.RoundTurnOk | main_updated.py:667-838 | a round keeps its bookkeeping and leaves an event; it ends the loop only at the target, or on the current revision's re-raise of a button-query exception naming the marker |
| Engine.RoundRules | main_updated.py:667-838 | the round's gating: a scan exactly when the query answers; a query exception that is not re-raised adds one error and nothing else; nothing available with buttons pending clears the pending count without scrolling; nothing available and nothing pending scrolls once; after a batch the error count is the batch's and its scroll's |
| Engine.ScanRules | main_updated.py:685-827 | the same gating for a round whose query answered, read from the scan's result |
| Engine.RoundOk | main_updated.py:646-838 | a round from the top of the loop either ends the loop as `FinishOk` says or keeps the loop invariant `LoopOk` |
| Engine.LoopFromStep | main_updated.py:646-665 | one step of the loop: the reconnect check at three errors, then one round, then the rest of the loop unless the round stopped it |
| Engine.LoopRoundOk | main_updated.py:646-838 | a round that passes the reconnect check ends the loop as `FinishOk` says or leaves `LoopOk` for the rest of the loop |
| Engine.LoopStepOk | main_updated.py:646-838 | from `LoopOk` at the top of the loop: it ends there (scroll limit, fuel, failed reconnect) as `FinishOk` says, or one round later `LoopOk` holds again |
| Engine.LoopFromOk | main_updated.py:646-838 | from `LoopOk`, the whole loop ends as `FinishOk` says |
| Engine.LoopTabStep | main_updated.py:646-665 | one step of the loop keeps or extends the trace, and changes the tab only to the one a working reconnect chose, recorded as the step's first event |
| Engine.LoopTabFacts | main_updated.py:646-665 | over the whole loop the trace only grows; without a working reconnect in it the browser's tab is the one the loop started with, and otherwise it is the tab a working reconnect chose |
| Engine.ProposalSender.BatchPass | main_updated.py:740-802 | one pass of the batch loop's body is one `BatchStep` with that button's run, and says whether the batch stops after it |
| Engine.ProposalSender.Settle | main_updated.py:769-802 | the bookkeeping after a button: a click counts once, the pending count never goes below zero, and a page-refresh exception adds an error and ends the batch |
| Engine.ProposalSender.ScrollDown | main_updated.py:807-813 | `ScrollTurn`: a working scroll counts and loads rows; a failed one adds an error and changes nothing else |
| Engine.ProposalSender.RunBatch | main_updated.py:726-802 | the batch loop computes `WholeBatch`: counters, buttons used, scroll flag, events and rows |
| Engine.ProposalSender.BatchRound | main_updated.py:804-827 | computes `BatchTurn`: the batch, then a stop at the target, else a scroll when the batch set the scroll flag or nothing is pending |
| Engine.ProposalSender.AfterScan | main_updated.py:705-724 | computes `AfterScanTurn`: nothing available scrolls when nothing is pending and otherwise clears the pending count; else the error count is cleared and the batch runs |
| Engine.ProposalSender.Round | main_updated.py:667-838 | computes `RoundTurn`: a query failure adds an error or (current revision, marker present) ends the loop; otherwise the scan and the rest of the round |
| Engine.ProposalSender.ScanRound | main_updated.py:677-827 | computes `ScanTurn`: the scan's newly counted buttons are added to the pending and detected counts, then `AfterScan` runs |
| Engine.ProposalSender.LoopRound | main_updated.py:646-838 | one round of the loop, reconnect check included, moves the loop's remaining result, the browser's tab included, as `LoopFrom` says |
| Engine.ProposalSender.RunLoop | main_updated.py:646-838 | the loop computes `LoopFrom` from the initial counters, the browser's final tab included |
| Engine.ProposalSender.SendProposals | main_updated.py:611-851 | the result and the browser's final tab are `LoopFrom` for the runs the page gives its buttons, and so: the tab changes only when a reconnect in the trace worked, and then to the tab a working reconnect chose; the count returned equals the presses in the trace and stays within the target; at most 100 scrolls, exactly 100 when they run out; never a scroll while counted buttons are pending; reconnects exactly at three errors; a crash only in the current revision, for a non-transient button-query failure naming the marker; no marker is lost |

## Left out

- I/O: reading and writing `settings.json` and `templates.json`, logging,
  screenshots, the exception log, desktop notifications and all console
  output. The outcome of a save is a parameter (`SaveOutcome`).
- Templates.AfterSave: the shared template manager of the current
  revision is not part of this model; it is taken to keep the record it was
  given, and its own loading from the file at start-up is left out. In the
  earlier revision a write that fails after the file was opened is taken to
  leave text that no longer parses.
- Templates.TemplateStore: an exception raised while changing the loaded
  record (a malformed record) is not modelled.
- Timing: every `sleep`, the lookup timeouts and the form's
  `modal_wait` deadline. The iframe lookups made before the deadline are a
  parameter (`iframePolls`).
- Dates: tomorrow's day of the month is a parameter (`tomorrowDay`).
- The operator's choice of a term in the interactive prompt is an oracle
  (`pick`). Writing the chosen label back to the settings is not modelled.
- DrissionPage itself: lookups, clicks, hover and scroll are oracles.
  `parent()` never raises in the model.
- Terms.SelectTermCurrent: the dropdown-opening search (ancestor tries and
  the two fallbacks) is summarised as whether opening raised and which panels
  were found.
- Text.IsSpace, Text.Lower, Text.IsDigit: ASCII whitespace, lower-casing and
  digits only. Python's Unicode rules (for `\s`, `lower()` and `\d`) are not
  modelled.
- Terms.SelectTermEarlier: XPath's `normalize-space()` is modelled with the
  same whitespace as `strip`, and a label holding a double quote, which
  breaks the XPath expression, is not modelled.
- Engine.ProposalSender.SendProposals: `btn.text` or `btn.attr` raising inside
  the scan is not modelled; only a failed button query reaches the outer
  `except` in the model. The `buttons is None` branch cannot be taken (the
  wrapper always returns a list) and is left out.
- Engine.ProposalSender.SendProposals: the loop runs at most `fuel` rounds
  (stop reason `OutOfFuel`), since rounds that neither scroll nor click can
  repeat without bound in the program.
- Engine.ProposalSender.SendProposals: a page re-render that drops the
  marker attributes is not modelled. Loaded rows are appended and the
  existing rows keep their markers.
- Engine: `total_detected_buttons` is only counted (`detected`) and nothing is
  proved about it, since it only feeds console output.
- The menu, the GUI, `ImpactRPA` and the notification service are not part
  of this model.
