# Chat transcript and signup paging of the analytics dashboard

This project models two pieces of state logic from the dashboard's single-page
front end (`src/App.jsx`) in Dafny and proves what they do.

**Chat page.** `ChatPage` keeps four state cells: the composer `input`, the
`sending` flag, the `messages` transcript and the `toast` notice. Its `send`
handler is cut into three steps by the `await` on the reply request:

- `StartSend` checks the guard (a non-blank `input.trim()` and no send in
  flight). It then appends the user's record (status *sending*) and a typing
  placeholder, clears the input, sets `sending` and shows "Generating
  response…". It returns the request text.
- `CompleteSuccess` marks the user's record *sent* and drops every typing
  placeholder. It then appends the reply, labelled `AI • Model v1`, and clears
  the notice.
- `CompleteFailure` marks the user's record *failed*. It keeps the
  placeholder and shows "Message failed to send. Retry?".

Both completions release `sending`. The transcript transforms themselves
(`map`/`filter`/`concat` on the message list) are pure functions in module
`Transcript`. `String.prototype.trim` is modelled in module `JsText`.

The transcript rules are proved:

- a failed send leaves its placeholder, so failures pile placeholders up;
- the next successful send removes all of them;
- a successful send keeps the surviving records in order and changes only
  the status of the records that carry the user record's id.

**Signup table.** `SignupTable` shows five rows per page. It computes
`total = ceil(n / 5)` and the rows `slice((page-1)*5, page*5)`. Prev is
disabled when `page === 1` and Next when `page === total`. The model proves:

- the pages read in order give back the table exactly;
- each page's length follows from the row count;
- Prev/Next keep a valid page number within `1..total`.

Next is only disabled by an equality test. So on an empty table (the
dashboard passes `[]` while it loads), `total` is 0 and Next stays enabled.
The same holds on any page past the last: every click moves further, onto
empty pages.

The three `Date.now()` calls of `send` (the user record's id, the
placeholder's id and the reply's id) are parameters. The reply request's
outcome is also a parameter: the caller chooses the completion.

## Model

| member | source | states |
|---|---|---|
| JsText.Trim | src/App.jsx:413-415 | the trimmed text is empty exactly when the input is all whitespace; otherwise it starts and ends with a non-whitespace character, and it is never longer than the input |
| JsText.TrimKeepsMiddle | src/App.jsx:415 | the trimmed text is the stretch of the input after its leading whitespace, and only whitespace follows it |
| JsText.SuffixWhitespace | src/App.jsx:415 | whitespace at the end of a suffix of the input is whitespace at the end of the input |
| JsText.TrimIdempotent | src/App.jsx:413-415 | trimming the trimmed text changes nothing |
| Chat.SendAllowed | src/App.jsx:413 | send proceeds exactly when the input holds a non-whitespace character and no send is in flight |
| Chat.StartSendShape | src/App.jsx:415-422 | after a start, the transcript is the old one, then the user record (id now, the text, status sending), then a placeholder bot record; the placeholder count rises by one |
| Chat.ChatPage.constructor | src/App.jsx:396-406 | the page starts with empty input, no send, no notice, and the stored transcript or else the seed |
| Chat.ChatPage.SetInput | src/App.jsx:461 | typing or a suggestion replaces the composer text and nothing else |
| Chat.ChatPage.StartSend | src/App.jsx:412-422 | a blocked guard changes nothing and sends no request; otherwise the transcript gains exactly the user record and the placeholder (contents and ids given), the input is cleared, sending is set, the notice reads "Generating response…", and the request carries the trimmed text |
| Chat.ChatPage.CompleteSuccess | src/App.jsx:424-432 | the transcript becomes the success transform of the old one with reply id nowReply+2, with no placeholder left; the notice is cleared and sending released; the input is untouched |
| Chat.ChatPage.CompleteFailure | src/App.jsx:428-432 | the transcript becomes the failure marking of the old one, with as many placeholders as before; the failure notice is shown and sending released; the input is untouched |
| Chat.SendAndFail | src/App.jsx:412-432 | a failed send of any input that is not all whitespace leaves one more placeholder than before and the page ready to send again |
| Chat.SendAndSucceed | src/App.jsx:412-432 | a successful send of any input that is not all whitespace leaves no placeholder, ends the transcript with the reply record, and leaves the page ready to send again |
| Chat.FailThenRecover | src/App.jsx:412-432 | from a transcript without placeholders, two failed sends of inputs that are not all whitespace leave two placeholders and a third, successful send leaves none |
| Transcript.SeedHasNoPlaceholders | src/App.jsx:400-404 | the seed transcript holds no typing placeholder |
| Transcript.TypingCount | src/App.jsx:426 | the placeholder count is at most the length, and it is zero exactly when no record is a placeholder |
| Transcript.MarkStatus | src/App.jsx:429 | the status update keeps the length; each record is replaced by itself with the new status when it carries the id, and is otherwise unchanged |
| Transcript.KeptIndicesSpec | src/App.jsx:426 | the kept positions are, in strictly increasing order, exactly the positions of records that are not placeholders, and there are length minus placeholder count of them |
| Transcript.KeptIndicesLength | src/App.jsx:426 | there are as many kept positions as records that are not placeholders |
| Transcript.KeptIndicesBounded | src/App.jsx:426 | each kept position is in range and holds a record that is not a placeholder |
| Transcript.KeptIndicesIncreasing | src/App.jsx:426 | the kept positions are strictly increasing |
| Transcript.KeptIndicesCover | src/App.jsx:426 | every position of a record that is not a placeholder is kept |
| Transcript.OnSuccess | src/App.jsx:426 | the success transform has length old length minus placeholders plus one, holds no placeholder, and ends with the reply record (the given id and text, source AI • Model v1) |
| Transcript.RemoveTyping | src/App.jsx:426 | the filter's output is never longer than its input; what it keeps is stated by RemoveTypingCount, RemoveTypingMembers and RemoveTypingKeepsOrder |
| Transcript.RemoveTypingCount | src/App.jsx:426 | the filter leaves no placeholder and shortens the list by the number of placeholders |
| Transcript.RemoveTypingMembers | src/App.jsx:426 | a record survives the filter exactly when it is in the list and is not a placeholder |
| Transcript.RemoveTypingKeepsOrder | src/App.jsx:426 | the filter returns exactly the records at the kept positions, in order |
| Transcript.SameTypingFlags | src/App.jsx:426 | lists whose records agree on the typing flag have the same placeholder count and the same kept positions |
| Transcript.TypingCountAppend | src/App.jsx:416-422 | the placeholder count of two lists joined is the sum of their counts |
| Transcript.RemoveTypingAppend | src/App.jsx:426 | filtering two lists joined is joining the filtered lists |
| Transcript.MarkStatusAppend | src/App.jsx:426 | the status update of two lists joined is joining the updated lists |
| Transcript.MarkStatusAbsent | src/App.jsx:429 | a status update for an id no record carries changes nothing |
| Transcript.SuccessSurvivors | src/App.jsx:426 | after success, the records before the reply are the non-placeholder records of the old transcript, in their order, each unchanged except that those carrying the user id now have status sent |
| Transcript.FailureKeepsPlaceholders | src/App.jsx:429 | the failure marking keeps the length and the placeholder count |
| Transcript.StartAddsOnePlaceholder | src/App.jsx:416-422 | appending the user record and the placeholder raises the placeholder count by exactly one |
| Transcript.MarkSendTail | src/App.jsx:415-429 | updating a freshly started send's user id changes only the user record, and the placeholder only if it carries the same id |
| Transcript.SendThenSuccess | src/App.jsx:413-427 | a send with a fresh id that succeeds yields the old records without placeholders, then the user record with status sent, then the reply |
| Transcript.RemoveTypingAfterSend | src/App.jsx:426 | filtering a list that ends in a record and a placeholder keeps the record and drops the placeholder |
| Transcript.DropTrailingPlaceholder | src/App.jsx:426 | filtering a record followed by a placeholder leaves only the record |
| Transcript.SendThenFailure | src/App.jsx:413-429 | a send with a fresh id that fails yields the old records unchanged, the user record with status failed, and the placeholder, still in place |
| Transcript.FailedSendsAccumulatePlaceholders | src/App.jsx:413-432 | two failed sends from a transcript without placeholders leave two, so "at most one placeholder" does not hold |
| Pagination.JsSlice | src/App.jsx:326 | slice is never longer than the list; for non-negative bounds in order it is the part between them cut off at the end; for bounds on one side of zero it is at most end minus start long |
| Pagination.TotalPages | src/App.jsx:325 | the page count is the least number of five-row pages that hold every row |
| Pagination.PageSlice | src/App.jsx:326 | a page holds at most five rows; from page 1 on it is the rows from (page-1)*5 to page*5, cut off at the end |
| Pagination.PageLength | src/App.jsx:324-326 | every page before the last holds five rows, the last holds the one to five remaining, and later pages are empty |
| Pagination.PagesPrefix | src/App.jsx:326 | the first k pages together are the first 5k rows, or all of them |
| Pagination.PagesCoverRows | src/App.jsx:325-326 | the pages 1 to total, read in order, are exactly the table |
| Pagination.NavigationStaysInRange | src/App.jsx:359-360 | on a non-empty table Prev and Next keep the page within 1..total; Prev does nothing exactly on page 1 and Next exactly on the last page |
| Pagination.TwelveRows | src/App.jsx:324-360 | twelve rows make three pages (rows 1-5, 6-10, 11-12), and Next is disabled on page 3 and no other |
| Pagination.EmptyTableNextNeverDisabled | src/App.jsx:325-360 | an empty table has zero pages, Next is never disabled, each click adds one to the page, and the page is empty |
| Pagination.PastTheLastPage | src/App.jsx:325-360 | past the last page Next stays enabled, a click moves one page on, and both pages are empty |
| Pagination.SignupTable.constructor | src/App.jsx:322-323 | the table starts on page 1 with the given rows |
| Pagination.SignupTable.Visible | src/App.jsx:326 | the rendered rows are at most five, the slice of the current page |
| Pagination.SignupTable.ClickPrev | src/App.jsx:359 | the page becomes the one after a Prev click that is disabled on page 1, and stays at least 1 |
| Pagination.SignupTable.ClickNext | src/App.jsx:360 | the page becomes the one after a Next click that is disabled on page total |
| Pagination.SignupTable.ReceiveRows | src/App.jsx:322-323 | new rows from the parent replace the table while the page number stays |

## Left out

- Rendering and styling (the shell, sidebar, top bar, cards, message bubbles, "Page x of y" text, the "Thinking…" line) are presentational and are not part of this model.
- Routing, the dark-mode toggle on the document element, the date-range menu and the KPI number formatting (which depends on locale-aware `toLocaleString`) are not part of this model.
- The charts and the mini area plot are left out because they compute in floating point and use `Math.random`.
- Network I/O: the reply `fetch` is left out. The caller decides its outcome by calling `CompleteSuccess` with the reply text or `CompleteFailure`. A non-ok status, a network error and a body that is not JSON all take the failure path. The dashboard's data fetch is modelled only as `ReceiveRows`.
- The reply text is taken to be a string. A response without a `reply` field would give a record with an undefined text, which the model does not represent.
- Storage: reading, writing and parsing the `localStorage` snapshot are browser code. The constructor receives the parsed snapshot (or none), and saving after each change is not modelled.
- Auto-scroll of the message list and the shown timestamps are left out.
- React's scheduling is not modelled. Each `setMessages(m => …)` is applied at once, in program order. Because the guard refuses a second send while `sending` holds, no two sends interleave. The await itself is the split between `StartSend` and the completions.
- Trimming works on Unicode code points, which is how `JsText.Trim` reads `trim()`. The ECMAScript whitespace set is written out, with Space_Separator listed as its code points. UTF-16 surrogate pairs are not distinguished, and they never count as whitespace anyway.
- Message ids are unbounded integers. `Date.now()` returns milliseconds, and the ids it produces are not checked for uniqueness by the source. SendThenSuccess and SendThenFailure assume a fresh user id as a precondition instead.
- The code at src/App.jsx:429 only updates the status on failure and does not remove the placeholder, so placeholders accumulate and "at most one placeholder" does not hold across failures. The model follows the code: FailedSendsAccumulatePlaceholders states the consequence, and OnSuccess shows that the next success removes them all.
