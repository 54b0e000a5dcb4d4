# homework_bot: the polling decision layer, in Dafny

The bot polls a homework-review API and tells a Telegram chat when a
homework's review status changes. This project models the decisions the
script `homework.py` makes once its HTTP client, Telegram bot, logger,
environment and clock are replaced by plain inputs and outputs:

- `values.dfy`, module `Values`: a decoded JSON value (`Json`), the
  exceptions the script raises as tags (`Error`), `Result`, `Outcome` and
  `Option`, and the text an f-string inserts for a JSON value (`Str`, with
  `DecimalString` for integers).
- `homework.dfy`, module `Homework`: the verdict table `HOMEWORK_VERDICTS`,
  `check_tokens` (a method with a loop over the three credentials in
  order), `get_api_answer` (an HTTP outcome `Fetch` classified into a body or
  an error, as written and as evidently intended), `check_response` and
  `parse_status`.
- `polling.dfy`, module `Polling`: one cycle of `main`'s `while True` loop as
  a function from the fetch outcome to what the cycle does (`Skipped`,
  `Sent(message)`, `Crashed(error)`); the `Poller` class holding the loop's
  state (start timestamp, the `from_date` of each request, the messages
  sent, whether the loop still runs) with a method per cycle and a method
  running the loop over a finite sequence of fetch outcomes; and `Launch`,
  the part of `main` before the loop.

The model follows what the code does, including where that is easy to
misread:

- `check_tokens` stops at the first missing credential, so it logs at most
  one critical line, naming that credential, and never checks the rest.
- The timestamp is read once before the loop, so every cycle requests the
  same `from_date`, one day before the start.
- `parse_status` is called in the `else` branch of `main`'s `try`, so its
  KeyError or TypeError is not caught and ends the loop, while fetch and
  validation failures are swallowed.
- A non-200 status raises TypeError rather than an HTTP error, and a network
  failure raises UnboundLocalError (see Findings).

## Model

| member | source | states |
|---|---|---|
| `Homework.VerdictTableShape` | homework.py:26-30 | the verdict table has exactly the keys approved, reviewing, rejected, with three different sentences |
| `Homework.VerdictSuffixUnique` | homework.py:26-30 | no verdict sentence is a suffix of another: two texts ending in verdicts that are equal end in the same verdict after the same text |
| `Homework.FirstMissing` | homework.py:40-44 | the scan finds no missing credential exactly when every credential has a value |
| `Homework.FirstMissingAt` | homework.py:40-44 | a missing credential preceded only by present ones is the one the scan reports |
| `Homework.MissingTokenLog` | homework.py:40-43 | the critical log holds at most one line; it is empty iff every credential has a value, and otherwise it is the line naming the first credential without one |
| `Homework.CheckTokens` | homework.py:33-44 | passes iff all three values are present; otherwise raises TokenNotExistsError after exactly one critical line naming the first missing credential; no line when it passes |
| `Homework.TokenCheckOrder` | homework.py:35-44 | the credentials are inspected in the order PRACTICUM_TOKEN, TELEGRAM_TOKEN, TELEGRAM_CHAT_ID and the log names the first missing one |
| `Homework.GetApiAnswerAsWritten` | homework.py:57-67 | returns the body only for status 200 with a JSON body; a network failure ends in UnboundLocalError, any other status in TypeError |
| `Homework.GetApiAnswer` | homework.py:57-67 | returns the body only for status 200 with a JSON body; a network failure is a network error, any other status an HTTP error carrying the code, an undecodable body a decode error |
| `Homework.GetApiAnswerFixAgrees` | homework.py:60-67 | the corrected and the as-written classification succeed on the same outcomes with the same body |
| `Homework.GetApiAnswerAsWrittenMisreports` | homework.py:60-66 | on a network failure and on status 404 the as-written classification raises a different error from the corrected one |
| `Homework.CheckResponse` | homework.py:70-80 | succeeds (with True) iff the value is a dict holding both `homeworks` and `current_date` whose `homeworks` is a list; the only errors are TypeError and KeyError, and KeyError exactly for a dict missing a key |
| `Homework.CheckResponsePrecedence` | homework.py:72-79 | a non-dict is a TypeError whatever it holds; a dict missing either key is a KeyError even when `homeworks` is not a list; a TypeError on a dict means both keys are present and `homeworks` is not a list |
| `Homework.CheckResponseIgnoresContents` | homework.py:74-80 | replacing the list's contents (by any list, the empty one included) and the `current_date` value leaves an accepted answer accepted |
| `Homework.ParseStatus` | homework.py:83-94 | returns a message iff the record is a dict with a name and a status that is one of the table's codes; the message is the fixed prefix, the name, `". ` and the status's verdict; otherwise TypeError (a non-dict record, or an unhashable status) or KeyError |
| `Homework.UnknownStatusIsKeyError` | homework.py:87-92 | a status outside the three codes is a KeyError, whatever the name |
| `Homework.ApprovedMessage` | homework.py:88-94 | an approved homework named n gives exactly `Изменился статус проверки работы "n". Работа проверена: ревьюеру всё понравилось. Ура!` |
| `Homework.MessageDeterminesStatus` | homework.py:89-94 | two records giving the same message have the same status and the same rendered name |
| `Polling.CycleAfter` | homework.py:103-114 | given `get_api_answer`'s result: an error, or an answer `check_response` rejects, is swallowed with that error; the cycle swallows nothing exactly when the answer is well shaped; it does nothing exactly for an empty list; a sent message is, and a crash raises the error of, `parse_status` on the first record |
| `Polling.CycleOutcome` | homework.py:103-114 | a cycle sends or crashes only on a status-200 reply with a JSON body; a network failure is swallowed as a network error and any other status as an HTTP error with its code; a crash is always a TypeError or KeyError |
| `Values.DigitsRoundTrip` | homework.py:94 | the decimal digits of a natural number read back as that number |
| `Values.Digits` | homework.py:94 | the digits of a natural number are canonical (at least one digit, no leading zero), and begin with `0` only for zero itself |
| `Values.DigitsCanonical` | homework.py:94 | every canonical digit string is the rendering of the number it denotes, so each number has exactly one rendering |
| `Values.DecimalString` | homework.py:94 | a non-negative integer renders as canonical digits (no leading zero) that read back as the integer; a negative one as `-` followed by canonical digits that read back as its absolute value |
| `Values.Str` | homework.py:94 | the f-string text of a name: a string is inserted unchanged, an integer as its canonical decimal text (with `-` when negative), booleans as `True`/`False`, null as `None`; the text is empty only for the empty string |
| `Polling.CycleDecision` | homework.py:103-114 | a cycle sends exactly when the fetch succeeds, the answer is well shaped, the list is non-empty and its first record is reportable, and the message is that record's `parse_status`; it crashes exactly when the first record is not reportable |
| `Polling.FailureIsSwallowed` | homework.py:103-107 | a failed fetch or a malformed answer sends nothing, does not end the loop, and the error is kept only locally |
| `Polling.EmptyListSendsNothing` | homework.py:109-114 | an empty `homeworks` list sends nothing and swallows nothing |
| `Polling.OnlyFirstHomeworkRead` | homework.py:109-110 | records after the first never change what a cycle does |
| `Polling.UnknownStatusEndsLoop` | homework.py:108-110 | a first record with an unknown status ends the loop with a KeyError |
| `Polling.FixKeepsCycleDecision` | homework.py:103-107 | with the as-written `get_api_answer` a cycle sends, skips and crashes exactly as with the corrected one; only the swallowed error differs |
| `Polling.Outcomes` | homework.py:102-115 | one cycle outcome per fetch, cycle i from fetch i |
| `Polling.UpToCrash` | homework.py:102-115 | the loop performs at most one cycle per outcome, and stops before the outcomes run out only right after a crash |
| `Polling.Trace` | homework.py:102-115 | a run performs at most one cycle per fetch, and performs fewer only when its last cycle crashed |
| `Polling.UpToCrashShape` | homework.py:102-115 | the cycles performed are a prefix of the outcomes, only the last can be a crash, and the run is cut short only by a crash |
| `Polling.TraceShape` | homework.py:102-115 | cycle i of a run handles fetch i, no cycle but the last crashes, and fewer cycles than fetches means the last one crashed |
| `Polling.SentAtMostOnePerCycle` | homework.py:109-112 | a run sends at most one message per cycle |
| `Polling.SentOfAppend` | homework.py:109-112 | the messages of two consecutive runs are those of the first followed by those of the second |
| `Polling.UpToCrashStep` | homework.py:102-115 | after one more cycle the run goes on unless that cycle crashed |
| `Polling.UpToCrashFrom` | homework.py:102-115 | from cycle i on, the loop performs cycle i and goes on with cycle i+1 unless cycle i crashed |
| `Polling.RunStep` | homework.py:102-115 | one more cycle extends the run along its trace, appends that cycle's message to the messages sent, and the run ends in a crash exactly when that cycle crashed |
| `Polling.Poller.constructor` | homework.py:101 | the loop starts with the given timestamp, no request, no message, running |
| `Polling.Poller.Cycle` | homework.py:102-115 | one cycle requests `from_date` = start − 86400, does what `CycleOutcome` says, appends the message it sends (if any) and stops the loop exactly on a crash; every request so far asked for the same `from_date` |
| `Polling.Poller.CycleAt` | homework.py:102-115 | cycle number i of a run handles the i-th fetch along the run's trace: it makes one request, appends its message to those sent, and leaves the loop running unless it crashes |
| `Polling.Poller.Run` | homework.py:102-115 | the loop over a sequence of fetches performs exactly the cycles of `Trace`, sends their messages in order, makes one request per cycle, and stops early only on a crash |
| `Polling.Launch` | homework.py:97-101 | the loop is entered iff all three credentials are present, with no request made yet; the critical log is the one `check_tokens` writes |

## Findings

| source | as written | input that shows it | evidently intended | confidence | as-written member | corrected member |
|---|---|---|---|---|---|---|
| homework.py:64-66 | `raise HTTPError` instantiates `urllib.error.HTTPError` with no arguments; its constructor requires five, so the statement raises TypeError | a reply with status 404 | raise an HTTP error carrying the status code | high; not executed | `Homework.GetApiAnswerAsWrittenMisreports` | `Homework.GetApiAnswer` |
| homework.py:60-64 | after a `RequestException` the handler only logs, and line 64 reads `response`, which was never assigned: UnboundLocalError | the request raising a `RequestException` | propagate the network failure | high; not executed | `Homework.GetApiAnswerAsWrittenMisreports` | `Homework.GetApiAnswer` |

The main loop (`Polling.CycleOutcome`) uses the corrected `GetApiAnswer`;
`Polling.FixKeepsCycleDecision` shows that the loop's observable behaviour
is the same with the as-written one, since both errors are caught by its
`except Exception`.

## Left out

- HTTP transport (`requests.get`, the endpoint, the `Authorization` header, `response.json()`): replaced by the `Fetch` outcome, with `None` for a body that is not JSON.
- The Telegram bot (`telegram.Bot`, `send_message`): a send is recorded in `Poller.sent`; delivery failures, which `send_message` swallows, are not modelled.
- Logging: only the critical lines of `check_tokens` are modelled (as `CheckTokens`'s `log`); the error and debug lines elsewhere are not.
- `load_dotenv` and `os.getenv`: the three credentials are `Option<string>` inputs.
- `time.time()`, `time.sleep(600)` and the unending `while True`: the start timestamp is a parameter, the sleep is not modelled, and `Poller.Run` covers a finite prefix of the loop.
- `print(message)`: console output, not modelled.
- `TokenNotExistsError` from the `exceptions` module, which is not part of this model: an error tag.
- The failure text built at homework.py:107 is never delivered; the model keeps the swallowed `Error` instead of its text.
- Polling.Poller.Cycle: the error a failed fetch leaves swallowed is the one the corrected `GetApiAnswer` gives (a network error, or an HTTP error with the status code), not the UnboundLocalError or TypeError the code as written raises; `Polling.FixKeepsCycleDecision` proves that the loop sends, skips and crashes the same either way.
- Values.Str: a list or dict used as `homework_name` is rendered as a placeholder, not as Python's `str()` of it; strings, integers, booleans and null render exactly.
- JSON floating-point numbers: `Json` has integers only.
