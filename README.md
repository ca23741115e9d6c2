# Currency converter front end: a Dafny model of its logic

The page loads a list of currencies (`currencyData`) from a backend, attaches two
searchable dropdowns to its "from" and "to" inputs, and sends a conversion request
when both currencies and a positive amount are given. This project models the parts
of `index.js` that are logic rather than DOM plumbing, with the DOM replaced by
in-memory values:

- **Retrying fetcher** (`Retry`, `retry.dfy`): `fetchWithRetry` as a method that loops
  over a sequence of per-attempt outcomes. It counts attempts and pauses, lists the
  status messages in the order they are written, and ends with the payload, the
  "Server did not respond" throw, or `undefined` when the loop never runs.
- **Registry and filter** (`Registry`, `registry.dfy`; helpers in `Text`, `text.dfy`):
  currency records, and the case-insensitive two-field substring filter of the
  input handler.
- **Searchable dropdown** (`SearchDropdown`, `dropdown.dfy`): the per-widget state
  (rendered rows, `highlightedIndex`, shown/hidden, input text). The pure functions
  `OnFocus`, `OnInput`, `OnKeyDown`, `OnItemClick` and `OnDocumentClick` specify one
  handler each. Class `Dropdown` is the widget itself: one method per event, each
  proved to leave the state its specification function gives. `populateDropdown`
  is the loop in `Dropdown.Populate`.
- **Conversion guards** (`Convert`, `convert.dfy`): the two input checks of
  `convertCurrency`, which decide whether a request is sent. Also what the result
  and status areas show afterwards.
- **Page** (`Page`, `page.dfy`): `loadCurrencies`, which attaches the widgets only
  after a successful load, and `swapCurrencies`.
- **Status texts** (`Status`, `status.dfy`): every message of the status area with its
  exact text (`Status.Message`). The retry message writes the attempt number in decimal.

Outside inputs are parameters:
- the network is a sequence of attempt outcomes, or a `Reply`;
- user actions are events;
- the texts of the input fields are strings.

The model keeps these behaviours of the code as written:
- `convertCurrency` lets an amount through when its text is not a number. `NaN <= 0`
  is false and the text is not empty, so the guard passes (`Convert.Validate`). The
  request and the result carry the amount's text as typed.
- With `retries <= 0`, `fetchWithRetry` makes no attempt and resolves with
  `undefined` (`Retry.Fetched.Undefined`). `loadCurrencies` always passes the
  default of 4, so it never meets this case.
- ArrowUp with nothing highlighted leaves the highlight at -1.
- Focus moving away does not hide a list. A list is hidden by:
  - a click outside the widget's input and list;
  - a row click, or Enter on a highlighted row;
  - typing a text that no record matches;
  - `swapCurrencies`, which hides both lists.
  Enter's programmatic row click bubbles to the document like a mouse click, so it
  also hides the other widget's list.

## Model

| member | source | states |
|---|---|---|
| `Text.Lower` | index.js:200-202 | `toLowerCase` on ASCII: same length, each letter A-Z mapped to a-z, every other character kept |
| `Text.IncludesIffOccurs` | index.js:202-203 | `includes` holds exactly when the needle occurs at some position of the string |
| `Text.DecimalRoundTrip` | index.js:33 | the decimal text of the attempt number reads back as that number |
| `Registry.Filter` | index.js:200-204 | every kept record matches the search and comes from the registry; never more records than the registry has |
| `Registry.FilterSelects` | index.js:200-204 | the filtered list is the registry's subsequence, in registry order, at exactly the positions whose lowercased code or name includes the lowercased search |
| `Registry.FilterMembership` | index.js:200-204 | a record is in the filtered list iff it is in the registry and matches |
| `Registry.FilterEmptySearch` | index.js:200-204 | an empty search returns the whole registry unchanged |
| `Registry.FilterIdempotent` | index.js:200-204 | filtering the filtered list again with the same text changes nothing |
| `Registry.FilterNarrows` | index.js:199-205 | typing more characters only narrows the list: the records matching the longer text are the ones in the shorter text's list that match it |
| `Registry.FilterEuExample` | index.js:200-204 | with US Dollar, Euro and British Pound, the search "eu" leaves exactly the Euro |
| `Status.Message` | index.js:30-115 | the exact text of each status message of the page (lines 31, 33, 61, 74, 93, 97, 101, 115); only the cleared status is empty |
| `Status.BeforeAttempt` | index.js:30-34 | the message before attempt 0 is the waking-up text; before attempt i > 0 it is the retry text for attempt i + 1 |
| `Status.RetryingNamesAttempt` | index.js:33 | the retry message is its fixed prefix, the attempt number in decimal, then "..." |
| `Retry.FetchWithRetry` | index.js:26-49 | returns a payload iff some attempt below `retries` succeeds. Then it is the first success's payload, after exactly k failed attempts and k pauses, with statuses waking-up, retry 2 ... retry k+1, then cleared. When all `retries` attempts fail it throws after `retries` attempts and `retries - 1` pauses. With `retries <= 0` it makes no attempt and returns undefined |
| `Retry.SucceedsOnFourthAttempt` | index.js:26-49 | three failures, then a success, with 4 attempts allowed: the fourth payload after 4 attempts and 3 pauses |
| `Retry.NeverSucceeds` | index.js:26-49 | four failures: the throw after 4 attempts and 3 pauses, with statuses waking-up, retry 2, retry 3, retry 4 |
| `SearchDropdown.Attached` | index.js:176-179 | a freshly attached widget has no rows, no highlight and a hidden list; it keeps its input, next field and text |
| `SearchDropdown.OnFocus` | index.js:192-196 | focus renders the whole registry, shows the list and resets the highlight to -1; the text is kept and the highlight is in range |
| `SearchDropdown.OnInput` | index.js:199-208 | input renders the filtered registry, resets the highlight to -1, sets the text, and shows the list iff some registry record matches |
| `SearchDropdown.FilterNonEmpty` | index.js:205-206 | the filtered list is non-empty iff some registry record matches the text |
| `SearchDropdown.OnItemClick` | index.js:258-261 | a row click sets the input to exactly that row's code and hides the list; nothing else changes |
| `SearchDropdown.OnKeyDown` | index.js:211-232 | a key never changes the rows or the wiring and keeps the highlight in range. Only Tab moves focus. The default is suppressed for the arrows and Enter, and for Tab exactly when it moves focus |
| `SearchDropdown.OnDocumentClick` | index.js:235-239 | after a click the list is shown iff it was shown and the click landed on this widget's input or list; nothing else changes |
| `SearchDropdown.Step` | index.js:191-239 | every event keeps the highlight within [-1, rows - 1], keeps every rendered row a registry record, and keeps the widget's input and next field |
| `SearchDropdown.RunKeepsValid` | index.js:179-239 | under any sequence of events the highlight stays within [-1, rows - 1] |
| `SearchDropdown.RunKeepsRowsFrom` | index.js:192-208 | under any sequence of events every rendered row is a registry record |
| `SearchDropdown.CommitIsRegistryCode` | index.js:222-261 | after any events from attachment, every click on a rendered row and every Enter on a highlighted rendered row sets the text to the code of a registry record and hides the list |
| `SearchDropdown.ArrowDownClamps` | index.js:214-217 | n ArrowDown presses move the highlight to min(h + n, rows - 1), with no wraparound, and change nothing else |
| `SearchDropdown.ArrowUpClamps` | index.js:218-221 | n ArrowUp presses move the highlight to max(h - n, 0), leave -1 at -1, and change nothing else |
| `SearchDropdown.EnterCommitsHighlight` | index.js:222-224 | Enter on a highlighted rendered row has exactly the effect of clicking it (text := its code, list hidden); otherwise it changes nothing; it never moves focus |
| `SearchDropdown.TabMovesFocusOnly` | index.js:225-231 | Tab focuses the configured next field; Shift+Tab focuses the "from" input only on the widget without a next field. On any other Tab the handler focuses nothing and leaves the browser default (`prevented` is false). The widget is unchanged |
| `SearchDropdown.FocusThenArrowDown` | index.js:192-217 | right after focus the first ArrowDown highlights row 0, or stays at -1 when the registry is empty |
| `SearchDropdown.Dropdown.constructor` | index.js:176-179 | the new widget is the attached state |
| `SearchDropdown.Dropdown.Populate` | index.js:248-264 | the rendered rows become exactly the given records, in order; nothing else changes |
| `SearchDropdown.Dropdown.Focus` | index.js:192-196 | the new state is `OnFocus` of the old one |
| `SearchDropdown.Dropdown.Input` | index.js:199-208 | the new state is `OnInput` of the old one |
| `SearchDropdown.Dropdown.ItemClick` | index.js:258-261 | the new state is `OnItemClick` of the old one |
| `SearchDropdown.Dropdown.KeyDown` | index.js:211-232 | the new state, the focus move and the default suppression are those of `OnKeyDown` |
| `SearchDropdown.Dropdown.DocumentClick` | index.js:235-239 | the new state is `OnDocumentClick` of the old one |
| `Convert.Validate` | index.js:91-99 | a missing currency is reported iff "from" or "to" is empty, whatever the amount. The amount is rejected iff both currencies are given and its text is empty or coerces to a number at most 0. The request proceeds iff both currencies are given and the amount's text is not empty and coerces to a positive number or to NaN |
| `Convert.BeginConversion` | index.js:89-101 | the result area is cleared in every case. A request with the three texts as typed is issued iff validation passes, with the converting status; otherwise the matching warning is shown |
| `Convert.FinishConversion` | index.js:103-117 | an answer is shown with the request's amount text, currencies, converted amount and rate, and the status is cleared; a failure leaves no result and shows the error |
| `Convert.ConvertCurrency` | index.js:83-118 | the request sent, if any, is the one validation allows |
| `Convert.InvalidInputSendsNothing` | index.js:89-99 | invalid input sends nothing, leaves the result empty and warns about the first failed check, whatever the backend would answer |
| `Convert.ValidInputSendsOneRequest` | index.js:101-117 | valid input sends one request with the texts as typed; the result then shows the answer, or stays empty with the error |
| `Convert.ZeroAmountSendsNothing` | index.js:96-98 | an amount whose text coerces to 0 never reaches the backend, whatever that text is |
| `Page.LoadCurrencies` | index.js:55-77 | the widgets are attached iff one of the 4 attempts succeeds. Then the registry is the first success k's payload, "from" tabs to "to", "to" has no next field, and the statuses are the k + 1 attempt messages, cleared, then server-live. Otherwise the registry is untouched and the statuses are the 4 attempt messages, then the load failure |
| `Page.Swapped` | index.js:161-167 | the two texts are exchanged and both lists hidden; nothing else changes |
| `Page.SwapTwice` | index.js:161-163 | swapping twice restores both texts; the lists stay hidden |
| `Page.SwapCurrencies` | index.js:153-168 | the two widgets' new states are `Swapped` of the old ones |

## Left out

- Network I/O: `fetch`, HTTP status checks, `response.json()`, and building the `/convert` URL. An attempt is only a success with a payload or a failure, and a conversion reply is only an answer or a failure.
- Retry.FetchWithRetry: a body that fails to parse after a 2xx response counts as a failed attempt, but the source has already cleared the status message before parsing. The model's status list does not show that brief clearing.
- Timing: `delay`/`setTimeout`, the 30000 ms pause and the 3000 ms self-clearing success message. Pauses are counted and time is not modelled, so `Page.LoadCurrencies` ends with the server-live status.
- The `url` and `delay_ms` arguments of `fetchWithRetry`; `console.warn`/`console.error` logging.
- Number formatting: `toFixed(2)` and the result text. The result area is the structured `Convert.Shown`: amount, currencies, converted amount and rate.
- String-to-number coercion of the amount. `Convert.Amount` pairs the text as typed with the value the coercion gives it (a number, or NaN). The model does not compute that value from the text; callers supply both.
- Rendering: the row text `code - name`, the `highlight` class, `scrollIntoView` and `innerHTML` clearing. The rows are the records they are made from.
- Event delivery between widgets. Focus moved by Tab is reported by `KeyDown`, and the target widget then handles its own focus event. A page click reaches every widget's `DocumentClick`. A row click, whether by mouse or by Enter's programmatic `click()`, also reaches them as a click on that list, so it hides the other widget's list.
- The browser's default Tab order: a Tab the handler does not prevent moves focus in the usual way, which the model does not follow.
- `toLowerCase` beyond ASCII: only A-Z are lowercased.
- Theme toggling, `localStorage`, the icon and the theme-color meta tag, and the swap button's rotate animation: styling and browser storage.
- The initial contents of the page's inputs and lists. They are not in index.js, so a widget starts with no rows and the input's current text is a parameter.
