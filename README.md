# Comparateur de devis: a Dafny model of the upload-and-compare pipeline

The application compares two renovation quotes given as PDF files. A browser client keeps a list of at
most two dropped PDF files and an editable analysis prompt. It posts both files and the prompt to a
server endpoint and renders the structured comparison the server returns. The server validates the
upload, sends the prompt and both files to a language model, and wraps the model's JSON answer.

This project models the four pieces of logic in that pipeline and proves properties about them:

- `FileSelection` (`file_selection.dfy`): the drop zone. A class holds the selected list. `OnDrop`
  appends, capped and PDF-filtered; `RemoveFile` splices one position out. Both hand the new list to
  the page object.
- `Submission` (`submission.dfy`): the page. A class holds the five state fields and the two change
  handlers. The submission handler is split at its one suspension point: `BeginSubmit` covers the
  guard, the loading state and the form data, and `FinishSubmit` covers the try/catch/finally after
  the HTTP call settles. A pure state/event model beside it carries the invariant proofs.
- `ResultView` (`result_view.dfy`): the result panel, a pure function from the optional result and
  the loading flag to a view.
- `Backend` (`backend.dfy`): the `compare_quotes` endpoint. It covers the validation order, the
  message with its two `data:` URLs (RFC 2397, section 3), and how the response is shaped and errors
  are wrapped.
- `Common` (`common.dfy`): `Option`, bytes, the uploaded-file record and the default prompt.

Parameters stand in for the foreign calls:

- The HTTP call is an `Outcome`: `Ok(result?)` or `Err(detail?)`.
- The request id, the base64 encoder, the model call and `json.loads` are arguments of
  `Backend.CompareQuotes`.

JavaScript truthiness is read as "present and non-empty" (`Truthy`, `NonEmpty`).

Three facts about the program shape the model:

- Transport failures are shown by the page's own error block (`App.js:103-107`), not by the result
  panel. The panel receives only `result` and `isLoading`.
- Overlapping submissions are not fenced. A successful settlement sets `result` without clearing
  `error` (`Submission.OverlappingSettlements`). So when two requests are pending and the first to
  settle fails, its message stays beside the result of the other. The page prevents this by
  disabling the button while loading, and the trace invariant assumes that discipline.
- The two files keep list order end to end. The client appends them in order and the server builds
  the message in upload order.

## Model

| member | source | states |
|---|---|---|
| `FileSelection.FileSelector.constructor` | comparateur-devis/frontend/src/components/FileUpload.js:6 | the list starts empty and agrees with the page's empty list |
| `FileSelection.FileSelector.OnDrop` | comparateur-devis/frontend/src/components/FileUpload.js:8-18 | the stored list becomes `DropResult(old list, candidates)` (old list, then as many MIME-PDF candidates as there are free slots, in input order); the page receives that same list and clears its error; at most two PDF entries before and after |
| `FileSelection.FileSelector.RemoveFile` | comparateur-devis/frontend/src/components/FileUpload.js:20-25 | the stored list becomes the splice of one position; the page receives that same list and clears its error; the selection invariant is kept |
| `FileSelection.IsPdfMime` | comparateur-devis/frontend/src/components/FileUpload.js:12 | the client's PDF test: the browser-reported MIME type is exactly `application/pdf`; the file name plays no part (see `Backend.ClientAndServerDisagree`) |
| `FileSelection.DropResult` | comparateur-devis/frontend/src/components/FileUpload.js:10-15 | the list a drop produces: the old list followed by the first free-slot-many MIME-PDF candidates; characterised by `DropStep`, `DropLength`, `DropExtends`, `DropWhenFull` and `NonPdfTakesNoSlot` |
| `FileSelection.Spliced` | comparateur-devis/frontend/src/components/FileUpload.js:21-22 | `splice(index, 1)` on a copy; characterised by `SplicedRemovesOne` and `SplicedOutOfRange` |
| `FileSelection.PdfOnly` | comparateur-devis/frontend/src/components/FileUpload.js:11-12 | the filtered candidates all have MIME type `application/pdf` and are drawn from the candidates, and every such candidate is kept |
| `FileSelection.PdfOnlyAppend` | comparateur-devis/frontend/src/components/FileUpload.js:11-12 | filtering a concatenation is concatenating the filtered parts, so the filter keeps the candidates' order |
| `FileSelection.DropStep` | comparateur-devis/frontend/src/components/FileUpload.js:11-15 | one turn of the `forEach` loop: the next candidate is pushed exactly when the list so far has fewer than two entries and the candidate is a PDF |
| `FileSelection.DropLength` | comparateur-devis/frontend/src/components/FileUpload.js:12 | from at most two entries, a drop yields `min(2, old + PDF candidates)` entries, so never more than two |
| `FileSelection.DropExtends` | comparateur-devis/frontend/src/components/FileUpload.js:10-13 | the old list is a prefix of the new one, and every added entry is a PDF candidate |
| `FileSelection.DropWhenFull` | comparateur-devis/frontend/src/components/FileUpload.js:12 | with two entries held, a drop leaves the list unchanged whatever the candidates |
| `FileSelection.NonPdfTakesNoSlot` | comparateur-devis/frontend/src/components/FileUpload.js:12-13 | removing a non-PDF candidate from anywhere in the drop does not change the result, so it never uses up a free slot |
| `FileSelection.DropKeepsSelection` | comparateur-devis/frontend/src/components/FileUpload.js:8-18 | a drop preserves "at most two entries, all PDF by MIME type" |
| `FileSelection.SplicedRemovesOne` | comparateur-devis/frontend/src/components/FileUpload.js:21-22 | for `0 <= i < n` the list loses exactly the element at `i`: length `n - 1`, the others in order, multiset minus that element |
| `FileSelection.SplicedOutOfRange` | comparateur-devis/frontend/src/components/FileUpload.js:22 | an index at or past the end leaves the list unchanged |
| `FileSelection.SplicedKeepsSelection` | comparateur-devis/frontend/src/components/FileUpload.js:20-25 | a removal preserves the selection invariant |
| `Submission.App.constructor` | comparateur-devis/frontend/src/App.js:34-38 | no files, the default prompt, no result, not loading, no error |
| `Submission.App.HandleFilesChange` | comparateur-devis/frontend/src/App.js:40-43 | `files` is replaced and `error` cleared; nothing else changes |
| `Submission.App.HandlePromptChange` | comparateur-devis/frontend/src/App.js:45-47 | only `prompt` changes |
| `Submission.App.BeginSubmit` | comparateur-devis/frontend/src/App.js:52-66 | with a count other than two only the validation message is set and no request is built; with two files the state is loading with result and error cleared, and the request is `[files: f0, files: f1, prompt: p]` |
| `Submission.App.FinishSubmit` | comparateur-devis/frontend/src/App.js:68-81 | success stores `response.data.result`; failure stores the detail-or-fallback message; loading ends either way |
| `Submission.App.HandleSubmit` | comparateur-devis/frontend/src/App.js:49-82 | one uninterrupted submission: the request as above and the final state of guard, or guard then settlement |
| `Submission.FilesChanged` | comparateur-devis/frontend/src/App.js:40-43 | the page state after `handleFilesChange`: the list replaced and the error cleared, the rest kept |
| `Submission.PromptChanged` | comparateur-devis/frontend/src/App.js:45-47 | the page state after `handlePromptChange`: only the prompt replaced |
| `Submission.Submitted` | comparateur-devis/frontend/src/App.js:52-59 | the synchronous part of `handleSubmit`; characterised by `GuardKeepsState`, `CompletedSubmission` and `AllowedSubmitIssues` |
| `Submission.Resolved` | comparateur-devis/frontend/src/App.js:68-81 | the settlement of `handleSubmit`; characterised by `CompletedSubmission` and `FailureMessage` |
| `Submission.SubmitEnabled` | comparateur-devis/frontend/src/App.js:118 | the submit button is enabled exactly when two files are held and no request is pending; `AllowedSubmitIssues` proves every enabled submission passes the guard |
| `Submission.BuildFormData` | comparateur-devis/frontend/src/App.js:62-66 | one `files` entry per file in list order, then the `prompt` entry |
| `Submission.FailureMessage` | comparateur-devis/frontend/src/App.js:78 | the server `detail` when truthy, else `Une erreur est survenue lors de la comparaison.`; never empty, so the error block always shows |
| `Submission.GuardKeepsState` | comparateur-devis/frontend/src/App.js:52-55 | a count other than two sets `error` to the fixed validation text; `files`, `prompt`, `result`, `isLoading` unchanged |
| `Submission.CompletedSubmission` | comparateur-devis/frontend/src/App.js:57-81 | before the call: loading, result and error cleared; after it: not loading, files and prompt untouched, result on success with no error, error message on failure with no result |
| `Submission.AllowedSubmitIssues` | comparateur-devis/frontend/src/App.js:118 | when the button is enabled (two files, not loading) a submission always passes the guard and enters the loading state |
| `Submission.StepConsistent` | comparateur-devis/frontend/src/App.js:40-81 | each event the page allows keeps: nothing stale while loading, never a result and an error together |
| `Submission.RunConsistent` | comparateur-devis/frontend/src/App.js:40-81 | the same invariant for every sequence of allowed events |
| `Submission.InitialConsistent` | comparateur-devis/frontend/src/App.js:34-38 | the initial state satisfies the invariant |
| `Submission.OverlappingSettlements` | comparateur-devis/frontend/src/App.js:57-81 | without the button discipline, two overlapping submissions can end with the first one's failure message beside the second one's result |
| `ResultView.Render` | comparateur-devis/frontend/src/components/ResultTable.js:4-32 | loading shows the spinner whatever the result; no result renders nothing; a truthy `result.error` shows only the error panel with that text; otherwise the heading and the sections |
| `ResultView.RowsOf` | comparateur-devis/frontend/src/components/ResultTable.js:57-64 | one row per table entry, in input order, cells aspect, devis1, devis2, commentaire |
| `ResultView.SideView` | comparateur-devis/frontend/src/components/ResultTable.js:90-110 | one side of the missing-items section: its list when present and non-empty, else the placeholder; see `MissingSidesIndependent` |
| `ResultView.Sections` | comparateur-devis/frontend/src/components/ResultTable.js:33-122 | the report's sections in page order; characterised by `SectionsInOrder` and the five `…Shown` lemmas |
| `ResultView.SectionsInOrder` | comparateur-devis/frontend/src/components/ResultTable.js:30-123 | sections appear in the fixed order general, table, differences, missing, recommendation, each at most once |
| `ResultView.GeneralShown` | comparateur-devis/frontend/src/components/ResultTable.js:35-40 | the general-comparison section appears iff its field is a non-empty string, showing it verbatim |
| `ResultView.TableShown` | comparateur-devis/frontend/src/components/ResultTable.js:43-69 | the table appears iff `tableau_comparatif` is present and non-empty, with its rows |
| `ResultView.DifferencesShown` | comparateur-devis/frontend/src/components/ResultTable.js:72-81 | the differences list appears iff present and non-empty, items in input order |
| `ResultView.MissingShown` | comparateur-devis/frontend/src/components/ResultTable.js:84-114 | the missing-items section appears iff `elements_manquants` is present |
| `ResultView.MissingSidesIndependent` | comparateur-devis/frontend/src/components/ResultTable.js:88-111 | each side shows its own list when non-empty and `Aucun élément manquant` otherwise, independently of the other side |
| `ResultView.RecommendationShown` | comparateur-devis/frontend/src/components/ResultTable.js:117-122 | the recommendation panel appears iff its field is a non-empty string, showing it verbatim |
| `ResultView.RecommendationOnly` | comparateur-devis/frontend/src/components/ResultTable.js:30-123 | a result holding only a recommendation renders the heading and that panel alone |
| `ResultView.MissingOnOneSide` | comparateur-devis/frontend/src/components/ResultTable.js:84-114 | no list for quote 1 and one item for quote 2 gives the placeholder and a one-item list |
| `Backend.ToLower` | comparateur-devis/backend/main.py:43 | same length, each ASCII capital letter lowered and every other character kept |
| `Backend.HasPdfSuffix` | comparateur-devis/backend/main.py:43 | the server's PDF test on the lower-cased file name; characterised by `PdfSuffixOfLastFour` and `SuffixIgnoresCase` |
| `Backend.FirstNonPdf` | comparateur-devis/backend/main.py:42-44 | the first position whose name fails the suffix test, or none when all pass |
| `Backend.Rejection` | comparateur-devis/backend/main.py:38-44 | every rejection is a 400; there is none exactly when there are two names and both pass the suffix test |
| `Backend.ValidateUploads` | comparateur-devis/backend/main.py:38-44 | the exception the two checks raise, equal to `Rejection` of the file names |
| `Backend.EffectivePrompt` | comparateur-devis/backend/main.py:32 | the prompt form field when sent, otherwise `DEFAULT_PROMPT` |
| `Backend.PdfDataUrl` | comparateur-devis/backend/main.py:75 | the URL is the prefix `data:application/pdf;base64,` followed by exactly the encoded text; `DataUrlRoundTrip` reads it back |
| `Backend.AnalysisMessages` | comparateur-devis/backend/main.py:67-88 | one `user` message holding the prompt text and then the two files' URLs, in upload order, each with detail `high` |
| `Backend.CountCheckedFirst` | comparateur-devis/backend/main.py:38-39 | a count other than two gives 400 `Exactement deux fichiers PDF sont requis`, before any name check |
| `Backend.FirstOffenderReported` | comparateur-devis/backend/main.py:42-44 | two files are refused iff some name fails the suffix test; the 400 detail names the first offender in upload order |
| `Backend.RejectionIgnoresContent` | comparateur-devis/backend/main.py:38-44 | files with the same names get the same verdict, whatever their content, size or MIME type |
| `Backend.PdfSuffixOfLastFour` | comparateur-devis/backend/main.py:43 | a name passes iff its last four characters lower-case to `.pdf` |
| `Backend.SuffixIgnoresCase` | comparateur-devis/backend/main.py:43 | a name ending in `.PDF` or `.Pdf`, whatever comes before, passes the name test |
| `Backend.ExtensionPasses` | comparateur-devis/backend/main.py:43 | any name whose extension lower-cases to `.pdf` passes the name test, whatever comes before it |
| `Backend.BareNameRejected` | comparateur-devis/backend/main.py:43 | a name with no `.pdf` extension (`devis`) fails the name test |
| `Backend.PdfNameAccepted` | comparateur-devis/backend/main.py:43 | a name ending in `.pdf` (`devis.pdf`) passes the name test |
| `Backend.ClientAndServerDisagree` | comparateur-devis/backend/main.py:43 | the client's MIME test and the server's name test are independent: a file can pass either one and fail the other |
| `Backend.Analysed` | comparateur-devis/backend/main.py:91-106 | success iff the model call and the parse both succeed, and then the body has exactly the keys `comparison_id` (the request id) and `result` (the parsed value); a raised call or a failed parse is 500 with detail `Erreur lors de l'analyse: ` + that exception's text |
| `Backend.ReadContents` | comparateur-devis/backend/main.py:49-53 | the contents list has one entry per upload, in upload order, each that upload's bytes |
| `Backend.EncodeContents` | comparateur-devis/backend/main.py:60-64 | the encoded list has one entry per content, in order, each the base64 encoding of that content |
| `Backend.CompareQuotes` | comparateur-devis/backend/main.py:30-106 | a rejection is answered as such; otherwise the model is asked with `[prompt or DEFAULT_PROMPT, data URL of file 0, data URL of file 1]`, each URL `data:application/pdf;base64,` + encoding of that file's content, and the answer is shaped as in `Analysed` |
| `Backend.DataUrlRoundTrip` | comparateur-devis/backend/main.py:70-86 | every URL built reads back under RFC 2397, section 3 as base64 data of media type `application/pdf` carrying exactly the encoded file |

## Left out

- Markup, styling, icons, the logo, the footer year and row colour parity: presentation only.
- The drop zone's own `accept` and `maxFiles` filtering (`FileUpload.js:27-34`) is library behaviour.
  `OnDrop` is modelled on whatever candidate sequence it receives.
- JSON numbers are modelled as exact `real` values. IEEE floating-point rounding in `json.loads` is not modelled.
- The file-size display (`file.size / 1024` with one decimal) is floating-point formatting.
- `FileSelection.FileSelector.RemoveFile`: takes a natural-number index. JavaScript `splice` counts
  a negative index from the end, but the page only passes list positions.
- `FileSelection.FileSelector.OnDrop`: React batching and closures over a stale `files` are not
  modelled. The method reads the component's current list.
- Network and transport: axios, `FormData`, multipart encoding, the base URL, timeouts and
  `console.error` logging. The HTTP call is an `Outcome`.
- `Submission.FailureMessage`: `detail` is an optional string. A non-string `detail`, such as the
  list the server framework sends for a malformed request, is outside the model.
- `ResultView.Render`: result fields are typed options. A field of an unexpected JSON type, such as
  a numeric recommendation or a string instead of a list, is outside the model. A missing table
  cell renders as an empty string.
- `Submission.RunConsistent`: assumes the page's discipline. Submit happens only while the button
  is enabled, so a call settles only while `isLoading` holds. Overlapping requests are covered only
  by `Submission.OverlappingSettlements`.
- `Backend.ToLower`: lowers only ASCII letters. Python's full Unicode lower-casing is not modelled.
- `Backend.CompareQuotes`: the prompt is an optional value, and an absent field means
  `DEFAULT_PROMPT`. How the web framework treats an empty form field is library behaviour and is
  not modelled.
- `Backend.ReadContents`: reading the uploads is modelled as taking each file's content. Read
  errors and the framework's answer to them are not modelled.
- The model call, base64 encoding, `json.loads` and `uuid4`: foreign calls, passed in as
  parameters. The `max_tokens`, model name and response-format arguments of the call are not
  modelled.
- The CORS middleware and the greeting route: configuration and static text.
- `comparateur-devis/backend/ai_utils.py`: file I/O and a model call. It is not part of this model.
- `comparateur-devis/backend/config.py`: apart from `DEFAULT_PROMPT` (`Common.DefaultPrompt`), it
  holds configuration and directory creation. It is not part of this model.
- `comparateur-devis/main.py`: a wrapper over a module that is not available. It is not part of
  this model.
- `PromptEditor.js` and `Header.js`: a visibility toggle, a pass-through setter and static markup.
  The prompt the editor pushes is the page's `prompt` field.
