# X-ray report history and analysis proxy, modelled in Dafny

This project models two parts of the medical X-ray demo application.

**The report history store** (`lib/history.ts`) keeps generated reports in one
browser-storage slot, under the key `xray-report-history`. The newest report
comes first. `report_history.dfy` models it as the class
`ReportHistory.HistoryStore`, which has two fields:

- `available` stands for the `typeof window` guard.
- `slot` is what reading and decoding the slot gives:
  - `Absent`: the slot is missing or holds the empty string.
  - `Stored(reports)`: the text decodes to a list of reports.
  - `Undecodable`: the JSON decoder throws on the text.

`getHistory` and `getReportById` only read, so they are functions that read the
object. `saveToHistory`, `deleteReportById` and `clearHistory` are methods. Each
method's `ensures` gives the new slot in terms of the old one. The `find` and
`filter` calls inside them are the functions `FindById` and `RemoveId`; the
prepend is a sequence concatenation in `SaveToHistory`. Lemmas prove what the
two functions mean:

- `FindById` returns the first match.
- `RemoveId` keeps the relative order and the multiplicities of the entries.
- `RemoveId` leaves the list unchanged exactly when the id is absent.
- Deleting one id does not change lookups of other ids.
- Deleting keeps ids unique. Saving keeps ids unique exactly when the new id is fresh.

The client method `HistoryWalkthrough` runs saves, a lookup, a delete and a
clear. It also covers an absent slot turning into an empty list after a
delete, and an undecodable slot being overwritten by a save. Its asserts are
proved from the contracts alone.

The source does not keep ids unique. The history page keys its cards by
`report.id` (app/history/page.tsx:98), so the app treats ids as unique, but
`saveToHistory` never checks for an existing id. The model follows the code.
`HistoryWalkthrough` saves two reports under one id and shows that both
entries stay and that a lookup finds the newer one.

A write can fail: `setItem` or `removeItem` throws and the source catches the
error. Each mutator takes the storage's verdict as a boolean parameter. When
the write fails, the slot keeps its old value.

**The analysis proxy** (`api/index.py`) is covered by `analyze_proxy.dfy`, for
the parts that are not network plumbing:

- the filename-extension check and the two HTTP 400 errors;
- the string-valued form fields built from `ReportGenerationParams`;
- the response shaping.

`str(int)` is modelled as `DecimalString`. The partner function `ParseInt`
reads it back, and `DecimalRoundTrip` proves that every integer survives the
round trip. The file read and the upstream model service are a function parameter,
`reply`, of `AnalyzeXray`; it answers with the text or with the HTTP error the
handler raises.

## Model

| member | source | states |
|---|---|---|
| ReportHistory.FindById | lib/history.ts:44 | the result, when present, is an entry of the list carrying the id; the result is absent exactly when no entry carries the id |
| ReportHistory.FindByIdIsFirst | lib/history.ts:44 | the entry found is the earliest one with the id |
| ReportHistory.RemoveId | lib/history.ts:56 | the result holds exactly the entries of the list whose id differs, and it is no longer than the list |
| ReportHistory.RemoveIdConcat | lib/history.ts:56 | filtering distributes over concatenation, so relative order is preserved |
| ReportHistory.RemoveIdCount | lib/history.ts:56 | each surviving entry keeps its multiplicity; entries with the id occur zero times |
| ReportHistory.RemoveIdUnchanged | lib/history.ts:55-57 | deleting leaves the list equal to itself if and only if no entry carries the id |
| ReportHistory.FindByIdAfterRemove | lib/history.ts:43-57 | after deleting one id, the lookup of any other id finds the same entry as before |
| ReportHistory.UniqueIdsPrepend | lib/history.ts:31-33 | prepending keeps ids unique if and only if the list had unique ids and lacked the new id |
| ReportHistory.UniqueIdsRemove | lib/history.ts:55-57 | deleting by id keeps a list with unique ids unique |
| ReportHistory.SaveThenDeleteRestores | lib/history.ts:32-56 | saving a report with a fresh id and then deleting that id gives back the earlier list |
| ReportHistory.HistoryStore.GetHistory | lib/history.ts:15-25 | returns the decoded list; returns the empty list outside a browser, for an absent slot, or for an undecodable slot |
| ReportHistory.HistoryStore.GetReportById | lib/history.ts:39-49 | returns null outside a browser; otherwise returns an entry of the history with the id, and returns null exactly when no entry has it |
| ReportHistory.HistoryStore.SaveToHistory | lib/history.ts:27-37 | on a successful write, the slot holds the report followed by the previous history, and a lookup of its id returns it; outside a browser or on a failed write, the slot is unchanged |
| ReportHistory.HistoryStore.DeleteReportById | lib/history.ts:51-61 | on a successful write, the slot holds the filtered history, even when it was absent before; the id is no longer found and lookups of other ids are unchanged; otherwise the slot is unchanged |
| ReportHistory.HistoryStore.ClearHistory | lib/history.ts:63-71 | on success, the slot is absent, the history is empty and every lookup returns null; otherwise the slot is unchanged |
| AnalyzeProxy.Lower | api/index.py:80 | the result has the same length and no upper-case ASCII letter; each character is kept or is its letter's lower case |
| AnalyzeProxy.EndsWithLower | api/index.py:80 | the lower-cased name ends with a suffix if and only if its last characters match the suffix case-insensitively |
| AnalyzeProxy.HasAllowedExtension | api/index.py:80 | a filename is accepted if and only if it ends in .png, .jpg or .jpeg, in any case |
| AnalyzeProxy.UpperCaseAccepted | api/index.py:80 | "SCAN.JPEG" is accepted |
| AnalyzeProxy.GifRejected | api/index.py:80 | "scan.gif" is rejected |
| AnalyzeProxy.InnerExtensionRejected | api/index.py:80 | "scan.png.txt" is rejected: only the end of the name counts |
| AnalyzeProxy.CheckUpload | api/index.py:76-81 | accepts exactly a present image with an allowed extension and returns it unchanged; a missing image gives 400 "No image file provided."; a bad extension gives 400 with the unsupported-format detail |
| AnalyzeProxy.NatDigits | api/index.py:97-98 | the result is a non-empty string of decimal digits with no leading zero unless the number is 0 |
| AnalyzeProxy.DecimalString | api/index.py:97-100 | the result is non-empty; it starts with '-' exactly for negative numbers, and it is all digits otherwise |
| AnalyzeProxy.NatDigitsRoundTrip | api/index.py:97-98 | reading a natural number's digits back gives the number |
| AnalyzeProxy.DecimalRoundTrip | api/index.py:97-100 | parsing the decimal string of any integer gives the integer back |
| AnalyzeProxy.BoolString | api/index.py:99 | the flag is sent as "true" exactly when it is set and as "false" exactly when it is not |
| AnalyzeProxy.FormFields | api/index.py:95-102 | there are exactly five fields; the prompt is sent as itself or as '' for None; max_new_tokens and num_beams decode back to their values; do_sample is "true" or "false"; top_k is '' exactly when None and otherwise decodes back to its value |
| AnalyzeProxy.DefaultFormFields | api/index.py:55-60 | with default parameters, the fields are prompt '', "100", "4", "false" and top_k '' |
| AnalyzeProxy.MissingAndEmptyPromptCollide | api/index.py:96 | a missing prompt and an empty prompt produce identical fields |
| AnalyzeProxy.ShapeResponse | api/index.py:117-121 | the upstream text is the findings verbatim; impression and recommendation are empty |
| AnalyzeProxy.AnalyzeXray | api/index.py:66-130 | an upload that fails the check gives that check's error; otherwise the request made of the filename and the form fields is sent, an upstream failure is passed through as the handler's error, and an upstream answer is returned shaped |

## Left out

- JSON encoding and decoding of the slot's text: the slot is abstract (`Absent`, `Stored`, `Undecodable`).
- Valid JSON that is not an array of reports: `getHistory` returns it as-is. For `null`, booleans, numbers and objects, the later spread, `find` or `filter` throws and is caught. `saveToHistory` spreads a JSON string into its characters, but a string has no `find` or `filter`, so `getReportById` returns null and `deleteReportById` writes nothing. An array of other values goes through all three, except that a `null` element makes `report.id` throw in `filter`, and in `find` only when no earlier entry carries the id. The model has no slot state for any of this.
- A `getItem` call that throws, for example when storage is disabled: for reading it behaves like `Undecodable`; for writing it is the failed-write case.
- Concurrent writers and lost updates: the source runs in a single thread and does no synchronisation.
- `console.error` logging, and the `print` logging in the proxy.
- Lower: lower-cases ASCII letters only. Python's `str.lower` also maps other Unicode letters, but none of them lowers to a character of ".png", ".jpg" or ".jpeg".
- A `None` upload filename: `.lower()` would raise outside the `try`. Filenames are strings in the model.
- The image bytes and content type sent upstream: they are passed through unchanged and are not modelled.
- `top_p` and its form field: formatting a Python float as a string is not modelled.
- The network: `requests.post`, `raise_for_status` and which exception becomes a 502 or a 500 (the model takes the resulting error from `reply`), the health check, the root endpoint, CORS setup, dependency injection and the environment-variable URL.
- The mock Next.js analysis route and the pages: timers, `FileReader`, `Date.now()` ids, routing, clipboard, sharing and rendering. The pages only call into the store.
