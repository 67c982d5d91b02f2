# web-gpt-explainer, modelled in Dafny

The system summarises PowerPoint decks with a chat model. It has two front
ends.

- **Web front end** (`web_api.py`). It stores each upload as
  `<timestamp>_<uid>_<name>` in an uploads directory, and answers status
  queries by uid. To do so it looks at three directory listings: outputs,
  then uploads, then errors.
- **Worker** (`presenter_web_processor.py`). It scans the uploads directory.
  Each upload is either summarised into `<name>.json` in outputs and removed,
  or moved to errors.

A command line (`ai_presenter.py`, class `CLI`) summarises decks named on the
command line and writes each summary beside its deck. Two pieces are shared
by both front ends:

- `presentation_helper.py` flattens a deck into one string per non-blank
  slide.
- `Presenter.get_presentation_summery` asks the chat model about every slide.

The model is organised as follows.

- `wrappers.dfy`: `Option` and `Result`.
- `pystrings.dfy`: the Python string operations the code relies on.
  - `str.isspace` over Python's whitespace characters.
  - `strip`.
  - `'\t'.join`.
  - `split('_')`, which always yields at least one field.
  - `rfind`, which returns -1 when the character is absent.
  - Slicing with a negative stop.
  - `rsplit('.', 1)[0]`.
- `exceptions.dfy`: the exception kinds that matter, and what `str()` gives
  for each.
- `job_store.dfy`: the three job directories.
  - As a value: `Dirs`, three maps from file name to content.
  - As the class `JobDirectories`, which the handlers and the worker change
    in place.
  - What `os.listdir` returns (`Lists`).
  - `json.load` on an output file.
- `presentation_helper.dfy`: `extract_text_from_table` and
  `get_all_text_from_presentation`.
  - Both are imperative methods with loops.
  - Each method is proved equal to a specification function: the left folds
    `TableText` and `SlideText`, and `ExtractedTexts`, the filter of blank
    texts over the per-slide texts.
  - The lemmas state the promised properties of those functions.
- `web_api.dfy`: the pieces of the web front end.
  - `gen_filename`, with the clock and the uuid as parameters.
  - The two validations of `upload_presentation` and the file it saves.
  - `get_status`: the three filtered listings, the precedence, the
    name/timestamp recovery, and the mutation of the metadata record. It is
    proved equal to the specification `StatusOf`.
- `presenter_web_processor.dfy`: one pass of the worker's `for` loop over a
  listing of uploads.
  - `ScanOnce` is a method on `JobDirectories`.
  - It is proved equal to the left fold `Scan` of a per-file transition,
    `ProcessFile`.
  - `Scan` takes the `except` clause as a parameter. The source's clause
    (`CaughtBySource`) and a clause that catches everything (`CatchAll`)
    share the same lemmas.
- `ai_presenter.dfy`: the CLI and the summary requester.
  - The per-slide `try`/`except` of `__call_chat`.
  - The shared result dict, as the class `SlideResults`, whose values come
    back in insertion order.
  - The gathering of all calls, with the completion order as an input.
  - The JSON output path.
  - `__save_as_json` and its error mapping.
  - The `CLI.__call__` loop.
  - The timeout default of `main`.

## Model

| member | source | states |
|---|---|---|
| PyStrings.Strip | presentation_helper.py:13 | The result has no leading or trailing whitespace. It is the input with an all-whitespace prefix and an all-whitespace suffix removed. |
| PresentationHelper.StripRow | presentation_helper.py:11-14 | One row's cells come back stripped, one entry per cell, in order (`StripCells`). |
| PresentationHelper.ExtractTextFromTable | presentation_helper.py:8-20 | The text is, row by row in order, the stripped cells joined by tab, each row followed by a newline. An empty table gives "". A table with a row gives text ending in a newline. |
| PresentationHelper.TableTextEnds | presentation_helper.py:16-19 | Table text is empty exactly for an empty table, and otherwise ends in a newline. |
| PresentationHelper.RowsTextAppend | presentation_helper.py:17-19 | The text of two runs of rows is the concatenation of their texts. |
| PresentationHelper.Separate | presentation_helper.py:30-31 | The padding step adds at most one space. Afterwards the text is empty or ends in whitespace. |
| PresentationHelper.AddShape | presentation_helper.py:28-35 | After any shape, the slide's text is empty or ends in whitespace. |
| PresentationHelper.CollectSlideText | presentation_helper.py:26-35 | The inner loop computes the slide's text, `SlideText`, one shape per iteration. |
| PresentationHelper.SlideTextEnds | presentation_helper.py:27-35 | Every slide string is empty or ends in a whitespace character. |
| PresentationHelper.KeepNonBlankSound | presentation_helper.py:37 | A string occurs in the result iff it occurs in the input and is non-empty and not all whitespace. The result is a subsequence of the input and is no longer. Nothing is dropped iff every string is kept. |
| PresentationHelper.KeepNonBlankPositions | presentation_helper.py:37 | The result lists the strings at `KeptIndices`, one entry per position. These positions are strictly increasing, and a position is among them iff its string is non-empty and not all whitespace. So a repeated string that is kept appears once per occurrence. |
| PresentationHelper.ExtractedTextsPerSlide | presentation_helper.py:25-37 | There is one entry per slide whose text is non-empty and not all whitespace, in slide order. Entry `j` is the text of slide `KeptSlides(deck)[j]`, and a slide is in `KeptSlides` iff its text is kept. |
| PresentationHelper.ExtractedTextsShape | presentation_helper.py:25-37 | The result has no empty or all-whitespace string. Each entry ends in whitespace. It is a subsequence of the per-slide texts in slide order, at most one per slide. |
| PresentationHelper.GetAllTextFromPresentation | presentation_helper.py:23-37 | The nested loops and the final filter compute `ExtractedTexts`. |
| WebApi.Timestamp | web_api.py:40 | The `%Y-%m-%d-%H-%M-%S` timestamp has only digits and `-`, never `_`. It is 19 characters for a four-digit year. |
| WebApi.UuidStr | web_api.py:41 | `str(uuid)` has 36 characters and no `_`. |
| WebApi.GenFilenameFields | web_api.py:39-41 | Splitting a generated name on `_` gives back the timestamp as field 0 and the uid as field 1. Field 2 is the name up to its first `_`, and equals the name iff it has no `_`. |
| PyStrings.SplitTwoFields | web_api.py:74 | Splitting `a_b_c`, where `a` and `b` have no `_`, gives `a`, `b`, then the fields of `c`. |
| PyStrings.SplitHasSecondField | web_api.py:68 | `split('_')[1]` exists iff the name contains `_`. |
| PyStrings.FirstFieldIsWhole | web_api.py:84 | The first `_`-field is the whole string iff it has no `_`. |
| WebApi.ValidateUpload | web_api.py:44-50 | No `file` part gives 400 "No file detected.". An empty filename gives 400 "No file selected.". Otherwise the upload passes unchanged. |
| WebApi.UploadPresentation | web_api.py:43-56 | A rejected request changes no directory. An accepted one stores the bytes under `gen_filename` and answers 200 with the uid. |
| WebApi.SecondField | web_api.py:68-70 | The second `_`-field is missing exactly when the name has no `_`. |
| WebApi.Matching | web_api.py:68-70 | The filter raises iff some name has no `_`. Otherwise it keeps exactly the names whose second field is the uid, and its first element is the first such name in the listing. |
| WebApi.MatchingNonEmpty | web_api.py:68-71 | On splittable listings, the filtered listing is non-empty iff some name carries the uid. |
| WebApi.GetStatus | web_api.py:58-96 | The handler, which fills the metadata record branch by branch, answers exactly `StatusOf`. |
| WebApi.StatusPrecedence | web_api.py:62-96 | A matching output gives Done or raises (IndexError for a name with fewer than three `_`-fields, a decode error for a file that is not JSON). Else a matching upload gives Pending, and else a matching error gives Error, each or IndexError. Else the reply is 404 with every field None. |
| WebApi.EmptyUidIsBadRequest | web_api.py:59-61 | An empty uid is answered 400 "Did not get a UID.". |
| WebApi.UnsplittableNameRaises | web_api.py:68-70 | A listed name without `_` makes the lookup raise IndexError, whatever the uid. |
| WebApi.ExplanationOnlyWhenDone | web_api.py:62-67 | An explanation appears only with status Done and code 200. Code 404 comes exactly with Not Found, which carries no other field. |
| WebApi.UploadedIsPending | web_api.py:80-85 | Right after an upload, the lookup by its uid reports Pending with the name's first `_`-field (the name itself when it has no `_`) and the upload's timestamp. |
| WebApi.ProcessedIsDone | web_api.py:71-79 | Once the worker has written `<upload>.json`, the lookup reports Done with the stored summaries. The reported filename is the original name when it has no `_`. |
| WebApi.DoneNameOfPlainName | web_api.py:75 | `rsplit('.', 1)[0]` of `<name>.json` is `<name>`, so `a.pptx.json` gives `a.pptx`. |
| PyStrings.BeforeLastOfSuffix | web_api.py:75 | Only the last `.`-suffix is removed. |
| JobStore.LoadJson | web_api.py:77-79 | A file the worker wrote loads as its list of summaries. Anything else raises a JSON decode error. |
| WebProcessor.ScanOnce | presenter_web_processor.py:36-49 | One pass over the listing changes the directories exactly as the fold of the per-file transition does, in listing order, stopping at the first exception the handler does not catch. |
| WebProcessor.NeverAbsentDuringSuccess | presenter_web_processor.py:43-45 | The output is written before the upload is removed. At every step the file is in uploads or outputs, and it ends in outputs holding the answer. |
| WebProcessor.StepFrame | presenter_web_processor.py:39-49 | One file's iteration changes uploads and errors only at that name, and outputs only at `<name>.json`. |
| WebProcessor.ScanFrame | presenter_web_processor.py:36 | Files outside the snapshot are untouched, as are output names that are not a listed name plus `.json`. |
| WebProcessor.ScanSettlesSnapshot | presenter_web_processor.py:39-49 | After a pass that completes, every listed file has left uploads. On success, `<name>.json` holds its answer and errors is at its name as it was at the start of the pass. On a caught exception, errors holds its content unchanged and outputs is at `<name>.json` as it was at the start. |
| WebProcessor.ScanCrashLeavesRest | presenter_web_processor.py:41-49 | An escaping exception was not caught and came from some listed file `k`. The files before `k` are settled, and `k` and every later file stay in uploads, unchanged. |
| WebProcessor.ScanCrashSticks | presenter_web_processor.py:41-49 | After an escaping exception, the rest of the listing changes nothing. |
| WebProcessor.NoErrorsEverWritten | presenter_web_processor.py:47-49 | With the source's handler and a summariser that never raises PresenterError, a pass leaves errors unchanged. |
| WebProcessor.PresenterNeverWritesErrors | presenter_web_processor.py:41-49 | With `get_presentation_summery` as the worker's summariser, and neither the parser nor a chat call raising PresenterError, a pass leaves errors unchanged. |
| WebProcessor.DeckFailureAbortsPass | presenter_web_processor.py:41-49 | A summary failure other than PresenterError on the first file ends the pass with nothing changed. |
| WebProcessor.ScanIntendedSettlesAll | presenter_web_processor.py:41-49 | With a handler for every exception, a pass always completes and every listed file ends in outputs or errors. |
| WebProcessor.JsonNameInjective | presenter_web_processor.py:39 | Distinct uploads get distinct output names. |
| AiPresenter.Settle | ai_presenter.py:19-24 | A reply is stored as is. A timeout stores "Slide request timed out.". An OpenAIError stores its `str`. Every other exception escapes unchanged. |
| AiPresenter.ChatHelperErrorEscapes | chat_helper.py:24-25 | The ChatHelper.Error that `send_prompt` raises instead of OpenAIError is not handled and escapes the per-slide call. |
| AiPresenter.SlideResults.Put | ai_presenter.py:20 | Dict assignment: the value is stored, a new key goes last, an existing key keeps its place. |
| AiPresenter.SlideResults.Values | ai_presenter.py:35 | `values()` lists the stored values in key insertion order. |
| AiPresenter.ValuesOfPut | ai_presenter.py:31-35 | Storing under a new key appends its value to `values()`. |
| AiPresenter.CallChat | ai_presenter.py:18-24 | The prompt is the query followed by the slide text. A handled outcome stores the settled text under the slide index. An unhandled one is reported and stores nothing. |
| AiPresenter.GatherSummaries | ai_presenter.py:30-35 | With the fixed query and a fresh dict, the calls taken in completion order give exactly `Gather`. |
| AiPresenter.GatherShape | ai_presenter.py:31-35 | The batch succeeds iff every slide settles. It then has one entry per call, the `j`-th being the settled text of the `j`-th slide to complete. Otherwise the error is that of the first slide, in completion order, that did not settle. |
| AiPresenter.GatherAppend | ai_presenter.py:32-34 | One more completion keeps an earlier failure, fails with this slide's exception, or appends its text. |
| AiPresenter.GatherFailureSticks | ai_presenter.py:34 | Once a call has escaped, later completions do not change the outcome. |
| AiPresenter.GetPresentationSummary | ai_presenter.py:27-35 | A deck that fails to open fails the summary. Otherwise the extracted slide texts are gathered as `Summary` says. |
| AiPresenter.SummaryOnePerSlide | ai_presenter.py:31-35 | When every slide settles, there is one entry per extracted slide, that is, one per slide whose text is non-empty and not all whitespace, in completion order, and entry `k` belongs to slide `k` when the calls complete in index order. |
| AiPresenter.CompletionOrderIsResultOrder | ai_presenter.py:31-35 | Two slides completing in reverse order come back reversed: the code never sorts by index. |
| AiPresenter.SummaryNeverRaisesPresenterError | ai_presenter.py:27-35 | If neither the deck parser nor the chat calls raise PresenterError, neither does the summary. |
| PyStrings.RFind | ai_presenter.py:42 | `rfind` is -1 iff the character is absent. Otherwise it is the position of its last occurrence. |
| AiPresenter.OutputPathReplacesExtension | ai_presenter.py:41-42 | The last extension is replaced by `.json`: `a.pptx` gives `a.json`. |
| AiPresenter.OutputPathWithoutDot | ai_presenter.py:42 | With no `.`, the slice to -1 drops the last character before `.json` is appended. |
| AiPresenter.OutputPathDropsLastLetter | ai_presenter.py:42 | `slides` gives `slide.json`. |
| AiPresenter.OutputPathCutsAtDirectoryDot | ai_presenter.py:42 | `./decks/report` gives `.json`. |
| AiPresenter.OutputPathIntended | ai_presenter.py:41-42 | The intended path always ends in `.json`. |
| AiPresenter.OutputPathIntendedAppends | ai_presenter.py:42 | With no `.`, the intended path is the whole path plus `.json`. |
| AiPresenter.OutputPathIntendedReplaces | ai_presenter.py:41-42 | The intended path replaces the extension of the last component, as the code does for `a.pptx`. |
| AiPresenter.OutputPathIntendedIgnoresDirectories | ai_presenter.py:42 | A `.` in a directory name does not cut the intended path. |
| AiPresenter.OutputPathIntendedExample | ai_presenter.py:42 | `slides` gives `slides.json`. |
| AiPresenter.SaveAsJson | ai_presenter.py:40-47 | A writable output path gets the JSON answer at the derived path. An IOError becomes PresenterError "Failed to write json file.". |
| AiPresenter.RunCli | ai_presenter.py:53-59 | The loop tries every path in order, printing a failure and going on, and ends in the state `RunSpec` gives. |
| AiPresenter.RunWritesEverySuccess | ai_presenter.py:54-59 | The files on disk afterwards are those before plus the output path of every path whose attempt succeeded, whatever failed in between. |
| AiPresenter.RunKeepsLastWriter | ai_presenter.py:55-57 | Each written file holds the answer of the last path that saved to it. |
| AiPresenter.RunReportsOnlyFailures | ai_presenter.py:58-59 | Standard error keeps its lines and gains exactly `FailureLines`: the `str` of each failed attempt's exception, in path order. It gains nothing when every attempt succeeds. |
| AiPresenter.FailureLinesShape | ai_presenter.py:58-59 | There are no failure lines iff every attempt succeeds, and each line is the `str` of the exception of a failed attempt. |
| AiPresenter.EffectiveTimeout | ai_presenter.py:76 | The timeout is the `--timeout` value, or 100 when it is absent or 0. It is never 0. |

## Left out

- Parsing `.pptx` files (`PresentationHelper.get_presentation`, a foreign library). The deck is a datatype. Opening it is an input outcome: the deck, or the exception the parser raises.
- The OpenAI client in `chat_helper.py`. One chat call is an input function from the slide index, the prompt and the timeout to a reply or an exception. `ChatHelper.Error` and `OpenAIError` are exception kinds.
- asyncio concurrency: `wait_for` timers, `gather` and task scheduling. The order in which the per-slide calls complete is an input. A timeout is the outcome TimeoutError. The batch fails with the first exception to escape in completion order. The model does not capture that the other calls of a failed batch keep running after that.
- Flask routing, `jsonify`, `request.files` and `file.save`. Requests and responses are records, and an escaping exception is the response `Raised`.
- WebApi.UploadPresentation: a failing `file.save` is not modelled. Storing the upload always succeeds, so a client filename containing `/` (whose directory under uploads does not exist) or a full disk gives 200 in the model, while the server raises and answers 500.
- `uuid.uuid4()` and `datetime.now()`: both are parameters. `%Y` is written without zero padding, as glibc does.
- JSON encoding and decoding. An output file is the abstract content `Json(items)`. An uploaded file is `Blob(bytes)`, even when its bytes happen to be valid JSON.
- `None` chat replies: `send_prompt` can return a `None` message content. The model treats every reply as a string.
- Logging, log handlers, `mkdir`, `time.sleep`, and the endless `while running` loop of the worker. One pass of the `for` loop is modelled, over a listing given as input.
- The constructors of `PresenterWebAPI`, `PresenterWebProcessor` and `CLI`, which only store directory names and create directories.
- Write failures in the worker (`open` or `write` raising while writing the output). A missing upload is modelled as a deck that cannot be opened.
- Races between the web front end and the worker editing the same directories.
- `argparse` in `main`, beyond the timeout default.
- Whether an output file can be opened for writing is a function of its path alone. The chat outcome is given per slide index, the worker's summary per upload name and the CLI's summary per position on the command line, so repeated texts, bytes or paths may fare differently.
- `client.py`, an HTTP client. `tests.py` is used only as evidence.
- WebProcessor.ScanOnce: the summariser sees an upload's content. The path that `os.path.join` builds from the uploads directory is not modelled.
- PresentationHelper.GetAllTextFromPresentation: the inner loop over shapes is the separate method `CollectSlideText`, which the outer loop calls.

## Findings

| source | as written | input that shows it | evidently intended | confidence | as-written member | corrected member |
|---|---|---|---|---|---|---|
| presenter_web_processor.py:47-49 | The worker catches only PresenterError. Summarising a deck never raises it: the parser and chat errors are other kinds, and PresenterError is raised only by the CLI's `__save_as_json`. So a failing deck ends the whole pass and stays in uploads. Nothing outside the `for` loop catches the exception either (not the `while running` loop, not `main`), so the worker process stops there. The deck is tried again only if something restarts the worker. Nothing ever reaches errors, and the web status "Error" is unreachable. | An upload that is not a valid `.pptx`, or whose chat call raises ChatHelper.Error | A failing deck is moved to errors and the pass goes on | not executed; high | WebProcessor.DeckFailureAbortsPass | WebProcessor.ScanIntendedSettlesAll |
| ai_presenter.py:42 | `path[0: path.rfind('.')]` with no `.` slices to -1, and drops the last character. A `.` in a directory name cuts the path at the directory. | `slides` gives `slide.json`; `./decks/report` gives `.json` | Replace the extension of the last component, or append `.json` when there is none | not executed; high | AiPresenter.OutputPathDropsLastLetter | AiPresenter.OutputPathIntendedExample |

`WebProcessor.PresenterNeverWritesErrors` shows the first finding for every deck and every chat outcome: it builds the worker's summariser from `AiPresenter.Summary` and combines `AiPresenter.SummaryNeverRaisesPresenterError` with `WebProcessor.NoErrorsEverWritten`. The worker's `ScanOnce` and the CLI's `RunCli` model the code as written, with the source's handler and `OutputPath`. The corrected members are proved beside them.
