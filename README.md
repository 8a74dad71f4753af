# Subnoto launcher extension — Dafny model

This project models the core of a launcher extension with three commands
that talk to the Subnoto document-signing service through its vendor API
client. It covers:

- **Service wrappers** (`Subnoto`): client configuration, the request body
  of the envelope list (workspace filter and page), and how a response
  becomes a list or a thrown error. The vendor client is a parameter: a
  function from request body to response, or an already-made call outcome.
- **URL patch** (`PatchUrl`): the base used for the bundled WASM asset.
  This is the directory of the asset's file URL. The patched `URL`
  constructor substitutes it only when no base was given and the input
  names that asset.
- **Upload form** (`UploadDocument`): the ordered pre-flight checks (file,
  extension, workspace), the default title, the checks of the upload
  response, and the edit URL. `handleSubmit` is the method
  `UploadForm.HandleSubmit`. It appends to a log of effects: toasts, the
  loading flag, client creation, the file read, the upload call and the
  browser opening. The log is specified by the pure function
  `SubmitEffects`, and the lemmas prove what the log can and cannot hold.
- **Envelope list** (`ListEnvelopes`): the component state is the datatype
  `View`, and each handler is a step function on it. The `cancelled` flag
  of the reload effect is an epoch number: each run of the effect takes
  the next one. A `World` pairs the view with the requests in flight. Its
  `Step` lets the user act, and lets any in-flight envelope request be
  answered in any order; the mount-time workspace load is not an event of
  `World` (it is `SettleWorkspaces`, performed by
  `EnvelopeList.WorkspacesSettled`). The class `EnvelopeList` holds the same fields, and its
  methods are proved to perform those steps.
- **Workspace list** (`ListWorkspaces`): the member-count subtitle, the
  workspace link, the empty view, and the loading/error state as a class.

Helper modules: `Wrappers` (Option, Result), `Strings` (last index, case
mapping, decimal rendering), `Types` (the records of `src/lib/types.ts`
and the envelope record; a thrown value is an `Error` or something else).

The code departs from its intended design in one place. A load that a
filter change has superseded is meant to be discarded, and the first-page
handlers check `cancelled` for that. The "load more" request has no such
check. The model keeps the code as written (`SettleLoadMoreAsWritten`) and
shows the resulting bug (see Findings). The corrected step
`SettleLoadMore`, which drops a page issued before the latest reload, is
what `World` and `EnvelopeList` use.

## Model

| member | source | states |
|---|---|---|
| Subnoto.ClientConfigFor | src/lib/subnoto.ts:7-14 | the client is built against the fixed API base URL; the access key is the preferences' access key and the secret key their secret key, never swapped |
| Subnoto.EnvelopeListBodyFor | src/lib/subnoto.ts:33-39 | the page defaults to 1; the workspace uuid is left out exactly when it is undefined or empty, and is sent verbatim otherwise |
| Subnoto.BodyFilterRoundTrip | src/lib/subnoto.ts:39 | an empty workspace uuid gives the same body as no uuid |
| Subnoto.NormaliseList | src/lib/subnoto.ts:44-52 | an error field always throws the fixed credentials message; without one the call succeeds with the server's list, empty when data or its list is missing |
| Subnoto.ErrorIgnoresData | src/lib/subnoto.ts:20-22 | with an error present, whatever data came along is ignored |
| Subnoto.MissingOrEmptyIsEmpty | src/lib/subnoto.ts:24-26 | missing data, a missing list and an empty list all give the empty list |
| Subnoto.ListWorkspaces | src/lib/subnoto.ts:16-29 | a failed client or call rethrows its reason; an error response throws the workspaces message; success exactly when the call resolved without error |
| Subnoto.ListEnvelopes | src/lib/subnoto.ts:33-53 | the server is asked with the body built from the arguments, and its answer is normalised with the envelopes message |
| PatchUrl.WasmBase | src/lib/patch-url.ts:8-11 | the base is the longest prefix of the href ending in `/` (empty when there is none): no `/` follows it |
| PatchUrl.WasmBaseUnique | src/lib/patch-url.ts:8-11 | any prefix ending in `/` with no `/` after it is that base |
| PatchUrl.WasmBaseOfAssetHref | src/lib/patch-url.ts:8-11 | for the asset's own href, the base is its directory followed by `/` |
| PatchUrl.IsWasm | src/lib/patch-url.ts:14-16 | the two-part asset test holds exactly when no base was given and the input's string form ends with the asset name: the `input === filename` disjunct adds nothing |
| PatchUrl.SelectBase | src/lib/patch-url.ts:13-18 | an explicit base is always kept; without one, the asset base is supplied exactly when the input names the asset |
| PatchUrl.SelectBaseIdempotent | src/lib/patch-url.ts:13-18 | applying the substitution to its own result changes nothing |
| Strings.ToLower | src/upload-document.tsx:51 | lower-casing keeps the length and maps each character on its own |
| Strings.NatToString | src/list-workspaces.tsx:47 | a count renders as its decimal digits: at least one digit, no leading zero, and the digits read back as the count |
| Strings.NatToStringInjective | src/list-workspaces.tsx:47 | distinct counts render as distinct texts |
| Types.AsErrorMessage | src/list-envelopes.tsx:81 | an Error keeps its message; anything else is wrapped as an Error of its string form |
| UploadDocument.Basename | src/upload-document.tsx:47 | the file name is the `/`-free tail of the path that follows its last `/` |
| UploadDocument.StripExtension | src/upload-document.tsx:48 | a final extension (a dot followed by at least one character other than `.` and `/`) is cut off; a name without one is unchanged |
| UploadDocument.DeriveTitle | src/upload-document.tsx:46-48 | a non-empty title field wins; otherwise the file name without its extension |
| UploadDocument.ReportTitle | src/upload-document.tsx:48 | `/tmp/report.final.pdf` without a title gives `report.final` |
| UploadDocument.TrailingDotTitle | src/upload-document.tsx:48 | `file.` keeps its trailing dot |
| UploadDocument.DotFileTitle | src/upload-document.tsx:48 | `.bashrc` gives an empty title |
| UploadDocument.Extension | src/upload-document.tsx:51 | the extension holds no `.` and ends the lower-cased whole path, and is either the whole path or preceded by a `.` in it |
| UploadDocument.IsAcceptedPath | src/upload-document.tsx:51-52 | an accepted path ends (case-insensitively) in one of pdf, doc, docx, odt, rtf, preceded by a `.` unless that extension is the whole path |
| UploadDocument.AcceptanceIgnoresCase | src/upload-document.tsx:51-52 | a path is accepted exactly when its lower-cased form is |
| UploadDocument.UpperCaseAccepted | src/upload-document.tsx:51-52 | any path ending in `.PDF` or `.Docx` is accepted, whatever precedes the extension |
| UploadDocument.UpperCaseExtensionAccepted | src/upload-document.tsx:51 | a path ending in a dot and a suffix that lower-cases to a dot-free text has that text as its extension |
| UploadDocument.DotlessPathJudgedWhole | src/upload-document.tsx:51-52 | a path without a dot is judged on its whole text, so a dotless path containing `/` is rejected |
| UploadDocument.AcceptedExtensionInFileName | src/upload-document.tsx:47-52 | an accepted extension is the file name's own extension, although it is cut from the whole path |
| UploadDocument.SlashFreeExtensionInFileName | src/upload-document.tsx:47-51 | the same holds for any extension without a `/` |
| UploadDocument.Validate | src/upload-document.tsx:36-69 | the first failed check decides: no file, then a bad extension, then no workspace, each exactly under its condition; a form that passes carries its first file, its workspace and the derived title |
| UploadDocument.CheckUploadResult | src/upload-document.tsx:90-95 | the upload succeeds exactly when it returned a non-empty envelope uuid and the workspace is non-empty, with that uuid; a missing or empty uuid gives the "no envelope ID" message, and a present uuid with an empty workspace the "no workspace" message |
| UploadDocument.WorkspaceCheckUnreachable | src/upload-document.tsx:61-95 | for a validated form the second result check never fires: success depends on the envelope uuid alone |
| UploadDocument.UploadFailureMessage | src/upload-document.tsx:107-108 | an Error contributes its message; anything else gives the fixed unknown-error text |
| UploadDocument.EditUrl | src/upload-document.tsx:97 | the edit URL is the fixed envelopes prefix, the workspace uuid, `/`, the envelope uuid and `/edit`, with nothing else in between |
| UploadDocument.EditUrlInjective | src/upload-document.tsx:97 | the edit URL determines its workspace and envelope when the workspace uuid holds no `/` |
| UploadDocument.DropdownValues | src/upload-document.tsx:134-138 | after a load that found no workspaces the only item is the empty placeholder; otherwise one item per workspace uuid, in order |
| UploadDocument.PlaceholderNeverProceeds | src/upload-document.tsx:134-135 | submitting with the placeholder is refused as "no workspace" |
| UploadDocument.AttemptEffects | src/upload-document.tsx:73-113 | the attempt starts by creating the client from the preferences and ends either by opening the browser or with a failure toast; a client failure does nothing else |
| UploadDocument.EffectsAfter | src/upload-document.tsx:37-116 | a rejected validation gives one failure toast; a proceeding one raises the loading flag first, creates the client next and lowers the flag last |
| UploadDocument.SubmitEffects | src/upload-document.tsx:36-117 | a submit raises the loading flag first exactly when the form is valid; otherwise it only shows that check's toast (`ValidationToast`: no file, invalid type or no workspace) |
| UploadDocument.AttemptFailureToast | src/upload-document.tsx:90-113 | an attempt that does not open the browser ends with the "Upload failed" toast carrying the thrown value's message (or "An unknown error occurred" for a non-Error), or, for a resolved upload that fails a check, that check's message |
| UploadDocument.AttemptEffectsShape | src/upload-document.tsx:73-113 | the attempt never touches the loading flag and only creates this user's client and uploads this form's file, title and workspace |
| UploadDocument.RejectedSubmitHasNoSideEffects | src/upload-document.tsx:37-69 | a rejected form shows exactly one failure toast and does nothing else: no network call |
| UploadDocument.EffectsAfterCallsOnProceed | src/upload-document.tsx:71-88 | after a validation outcome, a client and an upload call occur only if it proceeded, and carry its values |
| UploadDocument.UploadOnlyAfterValidation | src/upload-document.tsx:36-88 | the client is created and the upload called only for a validated form, with the values the validation derived |
| UploadDocument.EffectsAfterBracketed | src/upload-document.tsx:71-116 | around a proceeding attempt the loading flag is raised first, lowered last, and not touched in between |
| UploadDocument.LoadingBracketsAttempt | src/upload-document.tsx:71-116 | for a validated form the loading flag is raised first and lowered last, whatever happened, and not touched in between |
| UploadDocument.AttemptOpensEditUrl | src/upload-document.tsx:90-106 | the browser is opened only after a resolved upload that passed both checks, on that envelope's edit URL |
| UploadDocument.EffectsAfterOpensEditUrl | src/upload-document.tsx:71-116 | after a validation outcome, the browser is opened exactly when it proceeded and the resolved upload passed both checks, on that envelope's edit URL |
| UploadDocument.OpensEditUrlExactlyOnSuccess | src/upload-document.tsx:36-117 | a submit opens a URL exactly when the form is valid and the upload resolved with a non-empty envelope uuid, and the URL is that envelope's edit URL |
| UploadDocument.UploadForm.constructor | src/upload-document.tsx:17-19 | not submitting, no workspaces, workspaces loading, no effects yet |
| UploadDocument.UploadForm.WorkspacesLoaded | src/upload-document.tsx:21-34 | the loaded list, or the empty list on failure; the workspace spinner ends; nothing else changes |
| UploadDocument.UploadForm.HandleSubmit | src/upload-document.tsx:36-121 | the effect log grows by exactly the submit's effects; the loading flag ends cleared after an attempt and is untouched after a rejection, so after an attempt the form's spinner (`FormIsLoading`) shows only while workspaces still load |
| UploadDocument.UploadForm.Upload | src/upload-document.tsx:71-116 | raises the flag, runs the attempt, and clears the flag in the `finally` |
| UploadDocument.UploadForm.TryUpload | src/upload-document.tsx:73-113 | the `try`/`catch` body appends exactly the attempt's effects |
| ListEnvelopes.SecondsAndMillisecondsAgree | src/list-envelopes.tsx:11-13 | an instant from 2001 on is read the same whether sent in seconds or milliseconds |
| ListEnvelopes.ToDateIdempotent | src/list-envelopes.tsx:11-13 | normalising an already normalised timestamp changes nothing |
| ListEnvelopes.ToDate | src/list-envelopes.tsx:11-13 | any timestamp from 10^9 on comes out as milliseconds of at least 10^12 |
| ListEnvelopes.WorkspaceFilter | src/list-envelopes.tsx:43 | "All" (empty) means no filter, any other selection filters by itself |
| ListEnvelopes.FilterReachesBody | src/list-envelopes.tsx:43 | the filter and the page reach the request body unchanged |
| ListEnvelopes.FindWorkspace | src/list-envelopes.tsx:114 | finds the first listed workspace with the selected uuid, and finds none exactly when no such workspace is listed |
| ListEnvelopes.EmptyViewDescription | src/list-envelopes.tsx:145-153 | the error message; else the "across your workspaces" text for All; else the selected workspace's name; else empty for an unlisted uuid |
| ListEnvelopes.ItemTitle | src/list-envelopes.tsx:159 | the envelope's title when it has one, "Untitled" otherwise |
| ListEnvelopes.Keywords | src/list-envelopes.tsx:161 | the status followed by every tag |
| ListEnvelopes.SignaturesText | src/list-envelopes.tsx:168 | the signature count, `/`, the required count and " signatures", each count in decimal |
| ListEnvelopes.SignaturesTextInjective | src/list-envelopes.tsx:168 | the text determines both counts |
| ListEnvelopes.ItemUrl | src/list-envelopes.tsx:174 | an item links to the upload form's edit URL of its workspace and envelope |
| ListEnvelopes.ItemUrlIsEditUrl | src/list-envelopes.tsx:174 | an item links to the page the upload form opens for the same envelope; distinct envelopes link apart |
| ListEnvelopes.InitialView | src/list-envelopes.tsx:32-41 | before any effect: no workspaces yet and their load under way, envelopes not loading, nothing selected, no envelopes, no error, page 1, no more pages, no load-more pending; so the spinner (`IsLoading`) is on and the list trivially shows only the selection |
| ListEnvelopes.ReloadView | src/list-envelopes.tsx:64-71 | a new epoch cancels earlier runs; the list, page, more-flag and error reset and loading starts; nothing else changes |
| ListEnvelopes.FirstPageRequest | src/list-envelopes.tsx:72 | asks for page 1 under the current filter, tagged with the current epoch |
| ListEnvelopes.SelectView | src/list-envelopes.tsx:99 | the selection is stored and the list reloads exactly when it changed |
| ListEnvelopes.SettleFirstPage | src/list-envelopes.tsx:73-90 | a cancelled run changes nothing; otherwise the page replaces the list with more-flag iff it is full, or the error is recorded and the list emptied |
| ListEnvelopes.FinishFirstPage | src/list-envelopes.tsx:91-95 | only the current run ends loading |
| ListEnvelopes.LoadMoreRequest | src/list-envelopes.tsx:103-105 | asks for the next page under the current filter |
| ListEnvelopes.StartLoadMore | src/list-envelopes.tsx:101-104 | a second load-more while one is pending does nothing |
| ListEnvelopes.SettleLoadMoreAsWritten | src/list-envelopes.tsx:106-110 | as the code has it: a page is appended and the page counter set whenever it arrives; a failure changes nothing |
| ListEnvelopes.SettleLoadMore | src/list-envelopes.tsx:106-110 | a page from a cancelled run is dropped; the existing list is always kept as a prefix |
| ListEnvelopes.FinishLoadMore | src/list-envelopes.tsx:111 | the pending load-more is cleared, nothing else |
| ListEnvelopes.SettleWorkspaces | src/list-envelopes.tsx:45-62 | a loaded list replaces the workspaces, a failure keeps them; loading ends either way |
| ListEnvelopes.StaleNextPageShownAsWritten | src/list-envelopes.tsx:101-112 | as written: from the mounted view, select A, receive its full first page, load more, switch to B and show its first page; A's late second page is then appended to B's list and page becomes 2; the corrected step leaves B's list alone |
| ListEnvelopes.StaleNextPageSkipsPageAsWritten | src/list-envelopes.tsx:64-111 | as written, in the other order: A's late second page arrives before B's full first page; B's page replaces the list but the page counter stays 2, so B's next load-more asks for page 3; with the corrected step it asks for page 2 |
| ListEnvelopes.Step | src/list-envelopes.tsx:64-112 | the epoch grows by at most one; a new epoch empties the list, starts loading and sends exactly one first-page request; a refresh always opens one; an answer keeps the epoch and the selection and removes exactly the answered request from those in flight; an answer to no request changes nothing |
| ListEnvelopes.MountedConsistent | src/list-envelopes.tsx:64-72 | on mount the invariant holds: no envelope is shown, envelopes are loading, and the only request is a first page for the current filter |
| ListEnvelopes.DeliverKeepsConsistent | src/list-envelopes.tsx:73-111 | an honest answer to any in-flight request keeps the list within the selected workspace |
| ListEnvelopes.ReloadKeepsConsistent | src/list-envelopes.tsx:64-99 | a selection or refresh keeps every in-flight request either outdated or for the current filter |
| ListEnvelopes.LoadMoreKeepsConsistent | src/list-envelopes.tsx:101-105 | a load-more asks for the current filter |
| ListEnvelopes.StepKeepsConsistent | src/list-envelopes.tsx:64-112 | every user action and every honest answer keeps the list consistent with the selection |
| ListEnvelopes.RunKeepsConsistent | src/list-envelopes.tsx:64-112 | so does any sequence of them |
| ListEnvelopes.ListShowsSelectedWorkspace | src/list-envelopes.tsx:64-112 | whatever the user does and in whatever order answers arrive, a selected workspace's list shows only its envelopes |
| ListEnvelopes.LoadingUntilCurrentFirstPage | src/list-envelopes.tsx:66-115 | while envelopes load, the spinner (`IsLoading`) stays on through every action and every answer, stale first pages included, except the current run's first page |
| ListEnvelopes.CurrentFirstPageEndsLoading | src/list-envelopes.tsx:91-115 | the current run's first page ends envelope loading, so the spinner (`IsLoading`) then shows exactly while workspaces load |
| ListEnvelopes.ReloadShowsLoading | src/list-envelopes.tsx:64-71 | a reload turns the spinner (`IsLoading`) on and the empty view's title (`EmptyViewTitle`) reads "No envelopes" |
| ListEnvelopes.FailedFirstPageShowsError | src/list-envelopes.tsx:79-90 | a failed first page of the current run empties the list, and the empty view (`EmptyViewTitle`, `EmptyViewDescription`) shows "Failed to load envelopes" with the thrown value's message |
| ListEnvelopes.EnvelopeList.constructor | src/list-envelopes.tsx:32-41 | the initial state values |
| ListEnvelopes.EnvelopeList.Reload | src/list-envelopes.tsx:64-72 | performs the reload step and returns the first-page request it sends |
| ListEnvelopes.EnvelopeList.SelectWorkspace | src/list-envelopes.tsx:128-132 | performs the selection step, sending a first-page request exactly when the selection changed |
| ListEnvelopes.EnvelopeList.FirstPageSettled | src/list-envelopes.tsx:73-90 | performs the first-page settle step |
| ListEnvelopes.EnvelopeList.FirstPageFinished | src/list-envelopes.tsx:91-95 | performs the first-page `finally` step |
| ListEnvelopes.EnvelopeList.LoadMore | src/list-envelopes.tsx:101-105 | performs the load-more start and sends the next-page request exactly when none is pending |
| ListEnvelopes.EnvelopeList.LoadMoreSettled | src/list-envelopes.tsx:106-110 | performs the corrected load-more settle step |
| ListEnvelopes.EnvelopeList.LoadMoreFinished | src/list-envelopes.tsx:111 | performs the load-more `finally` step |
| ListEnvelopes.EnvelopeList.WorkspacesSettled | src/list-envelopes.tsx:45-62 | performs the workspace-load step |
| ListWorkspaces.MemberSubtitle | src/list-workspaces.tsx:47 | exactly "1 member" for one member; the decimal count followed by " members" for any other count |
| ListWorkspaces.NoMembersIsPlural | src/list-workspaces.tsx:47 | zero members reads "0 members" |
| ListWorkspaces.MemberSubtitleInjective | src/list-workspaces.tsx:47 | distinct member counts give distinct subtitles |
| ListWorkspaces.WorkspaceUrl | src/list-workspaces.tsx:52 | the fixed prefix, the uuid and `/all`, in that order, with nothing else |
| ListWorkspaces.WorkspaceUrlInjective | src/list-workspaces.tsx:52 | distinct workspaces link to distinct pages |
| ListWorkspaces.WorkspaceList.constructor | src/list-workspaces.tsx:10-12 | no workspaces, loading, no error |
| ListWorkspaces.WorkspaceList.LoadStarted | src/list-workspaces.tsx:14-16 | loading starts and the error clears, so the empty view (`EmptyView`) shows the "No workspaces" texts; the list is kept |
| ListWorkspaces.WorkspaceList.LoadSettled | src/list-workspaces.tsx:17-42 | a result replaces the list; a failure records its message, keeps the list and makes the empty view (`EmptyView`) show "Failed to load workspaces" with that message; loading ends either way |

## Left out

- UploadDocument.Basename: takes the text after the last `/`. It does not model the trailing-separator handling of Node's `path.basename` (`/a/b/` gives `b` there and the empty string here).
- Strings.ToLower: maps ASCII letters only. JavaScript's full Unicode case mapping, including length-changing mappings, is not modelled.
- Numbers are unbounded integers. JavaScript doubles, non-integer timestamps and non-integer member counts, and their `${}` rendering, are not modelled.
- `formatDate` and the `Date` object are not modelled: locale formatting belongs to the host's runtime. `ListEnvelopes.ToDate` gives the millisecond reading the `Date` is built from.
- The list's UI page size of 20 is a rendering hint to the host and has no effect on state.
- The host's toasts, `open`, clipboard actions and the dropdown's stored value are not modelled. They are recorded as effects (upload) or omitted (lists), and are taken never to throw.
- The vendor client, its HTTP requests and its handling of the WASM asset are parameters. `readFileSync` is represented by the `ReadFailed` outcome and a `ReadFile` effect; the file's bytes are not modelled.
- `error` fields and thrown values are modelled as present or absent (`Option`), and as an `Error` or not. JavaScript truthiness of other values is not modelled.
- `path.join` and `pathToFileURL` are not modelled: `PatchUrl.WasmBase` starts from the asset's file URL. Installing the patch globally and constructing the real `URL` are left to the host.
- ListWorkspaces.WorkspaceList.LoadSettled: two overlapping refreshes of the workspace list are not modelled. The code has no cancellation there, so the later-settling one wins.
- React's scheduling (batched state updates, effect timing, stale closures beyond the captured page and filter) is not modelled. Each handler is one atomic step. In `World`, a request's `then`/`catch` and its `finally` run as one step.
- ListEnvelopes.SettleLoadMoreAsWritten: a failed load-more is modelled as leaving the state alone, then clearing `loadingMore`. The code has no `catch` there, so the rejection also goes unhandled: no error is recorded and no toast is shown. The unhandled rejection itself is not modelled.
- ListEnvelopes.EnvelopeList.LoadMoreSettled: implements the corrected step (see Findings). The code as written is `ListEnvelopes.SettleLoadMoreAsWritten`.

## Findings

| source | as written | input that shows it | evidently intended | confidence | as-written member | corrected member |
|---|---|---|---|---|---|---|
| src/list-envelopes.tsx:101-111 | the load-more `then` appends its page and sets `page` without checking whether the reload effect has run again since the request was sent | on workspace A, after its full first page, with a load-more pending, select B; B's first page arrives, then A's second page: the list shows B's envelope followed by A's, and `page` is 2; if A's page arrives before B's first page instead, B's list is shown with `page` still 2, so B's next load-more asks for page 3 and page 2 is skipped | drop a page from a superseded run, as the first-page handlers do with `cancelled`, so that the list reflects only the latest filter | not executed; follows from the code as written | ListEnvelopes.StaleNextPageShownAsWritten | ListEnvelopes.ListShowsSelectedWorkspace |
