# Authorization-code capture worker: verified model of the request handler

The worker exposes one HTTP endpoint, `POST /`. It drives a headless browser through a
provider's login and authorize forms. It watches for the failed request whose URL carries the
OAuth authorization code, and returns that code. This project models the decision and parsing
logic of that handler in `main.py`. The browser is abstracted as something that either completes
or raises, and that reports a sequence of failed-request URLs while it runs.

Modules:

- `Wrappers` (wrappers.dfy): `Option` and `Result`.
- `PyStr` (pystr.dfy): the Python string operations the handler uses: `startswith`, `split(sep)`,
  `split(sep, 1)`, and `join` as the partner of `split`.
- `Capture` (capture.dfy): the `requestfailed` listener `on_request_failed`. It has four parts:
  - `ParseCapture` classifies one failed URL (ignored, malformed, no code, code).
  - `Step` is the update of the `captured_code` slot for one event.
  - `CaptureAll` folds the slot update over the listener's verdicts on the events, in delivery
    order; `CaptureAllStep` shows that it agrees with `Step` event by event.
  - `Slot` is the slot as a mutable cell, with one method per delivered event.
- `Http` (http.dfy): `http_response` and `CORS_HEADERS`. `Decode` is the caller's reading of a
  reply, and `HttpResponse` is specified through it.
- `Fetch` (fetch.dfy): input validation and reply selection in `fetch`. The browser flow is
  either `Completed(failed)` or `Threw(failed, message)`; `Fetch` gives whether browser work was
  started (entering `async_playwright()`, which may itself raise) and what the reply is.

Where the code and the design description of the system disagree, the model follows the code:

- A piece of the query that is not exactly one `key=value` pair (zero `=` or two or more) makes
  `dict(...)` raise. The whole event is then dropped, including any valid `code` pair in the
  same query. Malformed pairs are not tolerated.
- Every later matching event that yields a non-empty code overwrites the slot. The slot is not
  first-write-wins.
- An exception anywhere in the flow produces a 400 reply with the exception text. A code captured
  before the exception is discarded.
- The wait for `networkidle` (main.py:129) is not tolerated on timeout. Like every other browser
  step, it raises into the handler.
- Error messages carry no request correlation identifier.
- The default timeouts are 30000 and 20000 ms.
- There is no shared long-lived browser, no health endpoint and no restart gate. Each request
  launches its own browser.

## Model

| member | source | states |
|---|---|---|
| PyStr.StartsWithConcat | main.py:94 | `url.startswith("mym")` holds for the prefix followed by anything, and a string that passes is the prefix followed by its remainder |
| PyStr.SplitFirst | main.py:96 | `url.split("?", 1)`: absent exactly when there is no `?`; otherwise the text before the first `?` (which holds no `?`) and everything after it, so that they rejoin to the input |
| PyStr.SplitFirstOfJoin | main.py:96 | any `before + "?" + after` with `?` not in `before` splits back into exactly `before` and `after` |
| PyStr.SplitAll | main.py:97 | `s.split(sep)` returns one more piece than `s` has separators; no piece contains the separator; joining the pieces with the separator gives `s` back |
| PyStr.SplitAllJoin | main.py:97 | round trip: splitting the join of one or more separator-free pieces returns exactly those pieces |
| Capture.Pair | main.py:97 | a piece is accepted by `dict` exactly when it has one `=`; otherwise the rejected list has one part more than the piece has `=` |
| Capture.PairIsSplit | main.py:97 | `Pair` agrees with `p.split("=")`: a pair of its two parts when the list has length 2; otherwise that list's length |
| Capture.PairParts | main.py:97 | an accepted piece is its key, one `=` and its value; neither part holds an `=` |
| Capture.PairOfJoin | main.py:97 | round trip: `k + "=" + v` with no `=` in `k` or `v` is read back as the pair `(k, v)` |
| Capture.Params | main.py:97 | `dict(...)` succeeds exactly when every piece is a pair; its only failure is a `BadPair` |
| Capture.ParamsFirstBadPair | main.py:97 | a failed construction names the first piece that is not a pair and that piece's length; every earlier piece is a pair |
| Capture.ParamsKeys | main.py:97 | the parsed dictionary's keys are exactly the keys of the pieces |
| Capture.ParamsLastWins | main.py:97-98 | when a key occurs in several pieces, the value from the last such piece is the one in the dictionary |
| Capture.ParseCapture | main.py:92-103 | a URL is ignored exactly when it lacks the `mym` prefix; a matching URL without `?` is a caught `NoQuery` error; a reported code is never empty |
| Capture.BadPieceVoidsEvent | main.py:97-103 | one `&`-piece without exactly one `=` makes the whole event malformed, even if another piece is `code=...` |
| Capture.Query | main.py:96 | `url.split("?", 1)[1]` exists exactly when the URL has a `?`, and is the text after the first `?` (the URL is a `?`-free head, `?`, and the query) |
| Capture.ParamsCode | main.py:97-98 | the dictionary maps `code` to `c` exactly when the last piece whose key is `code` has the value `c` |
| Capture.ClassifyExactly | main.py:97-100 | the verdict on a query's pieces is the code `c` exactly when every piece is a pair, `c` is non-empty, and the last `code` pair has the value `c` |
| Capture.CodeExactly | main.py:94-100 | a prefixed URL with a query yields `c` exactly when every `&`-piece of its query has one `=`, `c` is non-empty, and the last piece with key `code` has the value `c` |
| Capture.ParamsOfPieces | main.py:97-98 | the `key=value` pieces of plain pairs parse back to a dictionary in which each key has the value of its last pair |
| Capture.ParseBuiltUrl | main.py:94-99 | round trip: for a prefixed base without `?` and plain pairs, the URL `base?k1=v1&...` yields the non-empty value of its last `code` pair |
| Capture.CodeOnlyUrl | main.py:94-100 | `<base>?code=<c>` yields `c` for a prefixed base and a non-empty `c` free of `&` and `=` |
| Capture.Apply | main.py:99-100 | the slot changes only on a verdict that carries a code, and it then holds that code |
| Capture.Step | main.py:99-100 | the slot changes only on an event that yields a code, and it then holds that code |
| Capture.Replay | main.py:99-100 | after a sequence of verdicts the slot is either unchanged or holds the code of one of them |
| Capture.ReplayAppend | main.py:105 | verdicts replayed in two batches leave the slot as if replayed in one |
| Capture.ReplayUntouched | main.py:99 | verdicts without a code leave the slot as it was |
| Capture.ReplayLastWins | main.py:99-100 | the last verdict with a code decides the slot |
| Capture.Verdicts | main.py:92-105 | the listener's verdicts are, one for one and in order, `ParseCapture` of the failed requests |
| Capture.CaptureAll | main.py:92-105 | after the delivered events the slot is either unchanged or holds the code that one of the failed requests yielded |
| Capture.CaptureAllStep | main.py:92-105 | one more delivered event changes the folded slot exactly as `Step` does, so the fold and the cell agree |
| Capture.CaptureUntouched | main.py:94-103 | events that yield no code (unmatched, malformed, missing or empty `code`) leave the slot as it was |
| Capture.CaptureLastWins | main.py:99-100 | the last event that yields a code decides the slot; later captures overwrite earlier ones |
| Capture.CaptureFromEvents | main.py:98-100 | a slot that starts empty ends empty exactly when no event yields a code; otherwise it holds a non-empty code that some event yielded |
| Capture.Slot.constructor | main.py:75 | the slot starts as `None` |
| Capture.Slot.OnRequestFailed | main.py:92-103 | delivering one event updates the cell as `Step` does, and changes it only when the event yields a code |
| Http.CorsHeadersEntries | main.py:35-39 | `CORS_HEADERS` holds three distinct header names: `Access-Control-Allow-Origin` is `*`, `Access-Control-Allow-Methods` is `POST`, `Access-Control-Allow-Headers` is `Content-Type` |
| Http.HttpResponse | main.py:35-56 | status as given (400 by default); the caller reads `{"code": message}` on 200 and `{"message": message, "code": status}` otherwise, with exactly those field names, and the three CORS headers with their values |
| Http.HttpResponseInjective | main.py:42-56 | distinct message/status arguments give distinct replies |
| Fetch.Get | main.py:66-68 | `payload.get` is present exactly for keys of the payload, and then is the payload's value for that key |
| Fetch.FalsyValues | main.py:72 | the values the guard treats as missing are exactly Python's falsy ones: `None`, `False`, `0`, `0.0`, `""`, `[]`, `{}` |
| Fetch.RequiredParamsExactly | main.py:66-72 | the guard passes exactly when `url`, `email` and `password` are each present with a truthy value |
| Fetch.Fetch | main.py:72-156 | browser work is started exactly when `url`, `email` and `password` are all truthy; the status is 200 exactly when the flow completed with a captured code, and 400 otherwise; the CORS headers are always present |
| Fetch.MissingParamsShortCircuit | main.py:72-73 | a falsy or missing `url`, `email` or `password` gives 400 "Missing required params" with no browser work started, whatever the flow |
| Fetch.ReportsLastCapture | main.py:146-147 | a completed flow answers 200 with the code of the last failed request that yielded one |
| Fetch.ReportsCodeNotFound | main.py:149 | a completed flow in which no failed request yielded a code answers 400 "Code not found" |
| Fetch.ExceptionDiscardsCapture | main.py:151-156 | a flow that raised answers 400 with the exception text, whatever had been captured |
| Fetch.SuccessExactly | main.py:146-149 | the reply carries code `c` exactly when the request is valid, the flow completed, and the last code-yielding failed request yielded `c` |
| Fetch.FetchAsWritten | main.py:138-156 | as written, every reply is a 400, and browser work is started exactly for valid requests |
| Fetch.AsWrittenLosesCapturedCode | main.py:138 | for a valid request whose redirect `<base>?code=<c>` failed, the intended handler answers 200 with `c`, and the handler as written answers 400 with the `TypeError` text |

## Left out

- Browser launch, context and page creation, navigation, selector waits, typing and clicks
  (main.py:77-135) are foreign asynchronous calls. They are abstracted as `Fetch.Flow`: the
  steps either all return or one raises a message, and meanwhile the browser delivers failed
  requests in order.
- `browser.close()` on both paths (main.py:143, 153-154) is resource release through the
  foreign browser. It is not modelled.
- Route registration and `await request.json()` (main.py:59-65) are transport code. The payload
  is taken to be a decoded JSON object. A body that fails to decode, or that is not an object,
  is not modelled.
- `timeout_input` and its default (main.py:70) are only passed to foreign calls; it is not
  modelled. `timeout_page` (main.py:69) is passed to foreign calls too, and also feeds the
  polling loop at main.py:138; its value is not modelled, and the Findings row covers that line.
- The timing and logging helpers and the `print` calls (main.py:9-32, 43, 50, 101, 103, 152) are
  observability glue over a clock and a console. They are not modelled.
- The polling loop (main.py:138-141) is timing and cooperative scheduling. `Fetch.Fetch` treats
  a completed flow as passing straight to main.py:146; see Findings.
- Fetch.FetchAsWritten: the `TypeError` text is the one Python gives for a numeric
  `timeout_page`. A non-numeric timeout would fail with a different text, or already at
  `page.goto`; that is not modelled.
- Concurrency between the listener and the handler is not modelled. Events are taken in delivery
  order, and each call has its own slot.
- JSON floating point is modelled as exact `real`; NaN and infinities are not represented.

## Findings

| source | as written | input that shows it | evidently intended | confidence | as-written member | corrected member |
|---|---|---|---|---|---|---|
| main.py:138 | `range((timeout_page/1000))`: in Python 3, `/` yields a float for any numeric timeout, and `range` raises `TypeError` on a float; the handler at main.py:151-156 turns that into a 400 reply | a valid request whose login succeeds and whose redirect `<base>?code=<c>` fails, with the default `timeout_page` of 30000 (`range(30.0)`) | poll the slot for a bounded number of rounds, then reach main.py:146 and answer 200 with the captured code | high (not executed) | Fetch.AsWrittenLosesCapturedCode | Fetch.SuccessExactly |
