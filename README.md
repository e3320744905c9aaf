# deaddrop transfer core in Dafny

deaddrop is an ephemeral file drop. The web client (`web/src/App.tsx`) uploads a dropped or
picked file and shows the pickup key it gets back. It builds a share link
`<origin>/deaddrop/<key>.<ext>`, redeems a key typed by a user as a browser download, and
shows short-lived "Copied!" confirmations. The Go server (`main.go`) stores each upload under a
fresh xid id. It serves the upload back by id, naming the download from the stored headers.

The model has six modules:

- `Common` (`common.dfy`): `Option`, bytes, the `[a-zA-Z0-9]` class, and `PrefixBefore`, the
  text before the first occurrence of a character. The server's id split and the client's
  `[^"]+` capture both use it.
- `UriComponent` (`uri_component.dfy`): `encodeURIComponent` and `decodeURIComponent` on ASCII
  text, with the decode failure that the browser raises as `URIError`.
- `AppHelpers` (`app_helpers.dfy`): the pure expressions of the component. These are the
  extension regex `\.([a-zA-Z0-9]+)$`, the rounded progress percentage, the filename regex
  `filename="?([^"]+)"?` with its `"downloaded_file"` default, and the share link.
- `AppController` (`app_controller.dfy`): the component's nine state variables plus the queue of
  pending `setTimeout` reverts, as an `AppState` snapshot. `Step` gives the effect of each
  event. The class `TransferController` holds the variables as fields and has one method per
  handler or callback, each proved to perform `Step`. Lemmas about `Step` and `Run` (a sequence
  of events) state what the handlers promise.
- `Server` (`server.dfy`): the id split, the download-name fallback and the response header. It
  also has `Retrieve`, the GET handler's answer over a map from id to stored request, and the
  class `Store` whose `Post` and `Get` methods are the two handlers.
- `RoundTrips` (`round_trips.dfy`): properties spanning both files. The share link addresses
  the stored key, a file name survives percent-encoding, the unquoted echo and decoding, and
  upload-share-redeem returns the original name and bytes.

The model follows the code as written. In particular:

- No generation counter exists. A late `onload` from an older upload still writes the state
  (`LateResultOverwrites`).
- The `setTimeout` reverts are never cancelled. The revert of an earlier copy hides the
  confirmation of a later one (`EarlierRevertHidesLaterCopy`).
- Upload errors are written into `pickupKey` as `"Error uploading file"`. There is no separate
  error field, so Copy ID would copy that text.
- A `JSON.parse` throw in `onload` escapes the `try`. `uploading` and `uploadProgress` are
  already reset and `pickupKey` keeps its value.
- A `decodeURIComponent` failure on the download filename is caught. It becomes the download
  error, with no fallback to the raw capture.

## Model

| member | source | states |
|---|---|---|
| `AppHelpers.ExtMatch` | web/src/App.tsx:29 | the capture group of `\.([a-zA-Z0-9]+)$`: the alphanumeric run ending the name when it is non-empty and preceded by `.`, otherwise no match |
| `AppHelpers.FileExt` | web/src/App.tsx:29-30 | `extMatch ? extMatch[1] : ""`: the capture, or `""` when the regex does not match |
| `AppHelpers.ProgressPercent` | web/src/App.tsx:40 | `Math.round(loaded / total * 100)` in exact arithmetic, as `(200·loaded + total) div (2·total)` |
| `AppHelpers.CaptureAtStart` | web/src/App.tsx:134 | the capture of `filename="?([^"]+)"?` anchored at the first character: after `filename=` an optional quote, then the non-empty run of non-quote characters |
| `AppHelpers.AlnumSuffix` | web/src/App.tsx:29 | the result is the longest alphanumeric suffix: a suffix, all `[a-zA-Z0-9]`, and the character before it (if any) is not alphanumeric |
| `AppHelpers.ExtMatchIsRegexMatch` | web/src/App.tsx:29 | `\.([a-zA-Z0-9]+)$` matches at index `i` iff ExtMatch succeeds and `i` is the index before its capture, so the match is unique; the capture is the rest of the name |
| `AppHelpers.FileExtShape` | web/src/App.tsx:29-30 | a non-empty extension is alphanumeric, holds no `.`, and the name is a stem followed by `"." + ext` |
| `AppHelpers.FileExtOfDottedName` | web/src/App.tsx:29-30 | any `<stem>.<ext>` with `ext` non-empty alphanumeric yields exactly `ext`, whatever dots the stem holds |
| `AppHelpers.FileExtAbsent` | web/src/App.tsx:29-30 | a name without `.`, or ending in a non-alphanumeric character, yields `""` |
| `AppHelpers.FileExtOfArchive` | web/src/App.tsx:29-30 | `archive.tar.gz` yields `gz` |
| `AppHelpers.FileExtOfHyphenated` | web/src/App.tsx:29-30 | `a.b-c` yields `""` |
| `AppHelpers.ProgressIsRoundHalfUp` | web/src/App.tsx:40 | the percentage `p` satisfies `2·total·p <= 200·loaded + total < 2·total·(p+1)`: the nearest integer to 100·loaded/total, halves rounded up |
| `AppHelpers.ProgressRoundingUnique` | web/src/App.tsx:40 | no other integer satisfies those bounds |
| `AppHelpers.ProgressBounded` | web/src/App.tsx:40 | for `loaded <= total` the percentage is at most 100 |
| `AppHelpers.ProgressMonotone` | web/src/App.tsx:40 | the percentage is non-decreasing in `loaded` |
| `AppHelpers.ProgressEnds` | web/src/App.tsx:40 | 0 bytes give 0%, all bytes give 100% |
| `AppHelpers.FilenameCapture` | web/src/App.tsx:134 | a capture is non-empty, quote-free and the capture of the regex at some index; no capture means the regex matches at no index |
| `AppHelpers.LeftmostCapture` | web/src/App.tsx:134 | the capture returned is the one at the leftmost index where the regex matches |
| `AppHelpers.CaptureAfter` | web/src/App.tsx:134 | after a prefix without `f`, `filename=v` and `filename="v"` both capture exactly `v` |
| `AppHelpers.ResolveFilename` | web/src/App.tsx:131-136 | the name the download is saved under: `downloaded_file` for a missing or empty header or no match, otherwise `decodeURIComponent` of the leftmost capture, no name when decoding throws |
| `AppHelpers.ResolveFilenameCases` | web/src/App.tsx:131-136 | a missing or empty header, or no match, gives `downloaded_file`; otherwise the result is the decoding of the leftmost capture |
| `AppHelpers.ResolveAttachment` | web/src/App.tsx:131-136 | `attachment; filename=v`, quoted or not, resolves to the percent-decoding of `v` |
| `AppHelpers.ShareLink` | web/src/App.tsx:245 | the link `<origin>/deaddrop/<key>.<ext>` written by Copy Link |
| `AppHelpers.UploadDisposition` | web/src/App.tsx:35-36 | the upload header `attachment; filename="<encodeURIComponent(name)>"` |
| `AppHelpers.ResolveReportExample` | web/src/App.tsx:131-136 | `attachment; filename="report.pdf"` resolves to `report.pdf` |
| `UriComponent.EncodeUriComponent` | web/src/App.tsx:35 | the encoding holds only unreserved characters, `%` and hex digits (so no `"`), and is empty only for the empty name |
| `UriComponent.DecodeUriComponent` | web/src/App.tsx:135 | `decodeURIComponent`: each `%hh` escape becomes the character it names, other characters are kept, and a `%` without two hex digits fails (as `URIError`) |
| `UriComponent.DecodeEncode` | web/src/App.tsx:135 | decoding the encoding of an ASCII name gives the name back |
| `UriComponent.DecodeWithoutEscapes` | web/src/App.tsx:135 | text without `%` decodes to itself |
| `AppController.Step` | web/src/App.tsx:17-248 | the effect of one event on the nine state variables and the queue of pending reverts, one branch per handler or callback: drag, drop, pick, progress, load, error, key input, download click and settle, the two copy buttons and a revert timer |
| `AppController.UploadStarted` | web/src/App.tsx:22-68 | the shared start of an upload: `uploading` set, key cleared, progress 0, `fileExt` from the first file's name; a throw during the XHR set-up ends as a failed upload |
| `AppController.UploadFailed` | web/src/App.tsx:56-68 | the end of a failed upload, shared by `onerror` (lines 57-59) and both `catch` blocks (65-67, 116-118): `uploading` false, progress 0, and the pickup key set to `"Error uploading file"` |
| `AppController.SaveFor` | web/src/App.tsx:126-146 | the file saved by a settled download: none for a rejected fetch, a non-ok response or a failed decode, otherwise the body under `ResolveFilename` of the header |
| `AppController.IdCopyText` | web/src/App.tsx:213-214 | the text Copy ID writes: the pickup key when it is non-empty, otherwise nothing |
| `AppController.LinkCopyText` | web/src/App.tsx:244-246 | the text Copy Link writes: `ShareLink` of origin, key and extension when both are non-empty, otherwise nothing |
| `AppController.DownloadPath` | web/src/App.tsx:127 | the URL `handleDownload` fetches: `/deaddrop/` followed by the typed key |
| `AppController.UploadStartResets` | web/src/App.tsx:19-30 | starting an upload sets `uploading`, clears `pickupKey`, sets progress 0 and `fileExt` from the first file, and leaves download and copy state unchanged |
| `AppController.OnlyFirstFileCounts` | web/src/App.tsx:27-30 | files after the first change nothing, for drop and for pick |
| `AppController.DropMatchesFileChange` | web/src/App.tsx:17-82 | drop and pick of the same files give the same state, except that drop also clears `dragActive` |
| `AppController.EmptySelectionStartsNothing` | web/src/App.tsx:19-21 | a drop with no files only clears `dragActive`; a pick with no files changes nothing |
| `AppController.TerminalUploadEvents` | web/src/App.tsx:45-68 | load, transport error and a set-up exception all leave `uploading` false and progress 0; the key becomes the id (200, parseable), the error text (other status, error, exception), or stays (200, unparseable) |
| `AppController.ProgressTick` | web/src/App.tsx:38-43 | a tick without computable length changes nothing; a well-formed tick gives at most 100, and exactly 100 when all is sent |
| `AppController.ProgressStaysInRange` | web/src/App.tsx:38-43 | over any run of events with well-formed ticks the percentage stays within [0, 100] |
| `AppController.LateResultOverwrites` | web/src/App.tsx:45-54 | a load arriving after a newer upload started still sets the pickup key |
| `AppController.PickThenLoadScenario` | web/src/App.tsx:79-102 | picking `<stem>.<ext>` and loading id `key` gives that key and extension and the link `<origin>/deaddrop/<key>.<ext>` |
| `AppController.SaveForCases` | web/src/App.tsx:125-146 | nothing is saved iff the fetch was rejected, the response was not ok, or the filename failed to decode; otherwise the body is saved under the resolved name |
| `AppController.DownloadOutcome` | web/src/App.tsx:124-148 | click then settle shows exactly `"Failed to download file. Check your pickup key."` when nothing is saved, no error otherwise, and changes nothing else |
| `AppController.RejectedKeyScenario` | web/src/App.tsx:127-128 | a non-ok response (404) saves nothing and shows the error text |
| `AppController.CopyClicks` | web/src/App.tsx:212-252 | Copy ID acts iff the key is non-empty and copies it; Copy Link acts iff key and extension are non-empty and copies `origin/deaddrop/key.ext`; a successful copy sets its flag and queues one revert |
| `AppController.CopyFlagsIndependent` | web/src/App.tsx:212-249 | a copy or revert of one kind leaves the other flag unchanged |
| `AppController.StepKeepsFlagsPending` | web/src/App.tsx:215-248 | every event keeps the invariant that each visible confirmation has a revert pending |
| `AppController.RunKeepsFlagsPending` | web/src/App.tsx:215-248 | the same invariant holds over any run of events |
| `AppController.RevertsClearFlags` | web/src/App.tsx:216-248 | once all pending reverts fire, both confirmations are hidden and no revert is pending |
| `AppController.EarlierRevertHidesLaterCopy` | web/src/App.tsx:212-217 | two Copy ID clicks then one revert: the confirmation is hidden while the second revert is still pending |
| `AppController.TransferController.constructor` | web/src/App.tsx:5-13 | the fields start at the `useState` initial values with no revert pending |
| `AppController.TransferController.HandleDragOver` | web/src/App.tsx:155-158 | performs `Step` for drag-over: `dragActive` becomes true |
| `AppController.TransferController.HandleDragLeave` | web/src/App.tsx:159 | performs `Step` for drag-leave |
| `AppController.TransferController.StartUpload` | web/src/App.tsx:22-68 | performs the shared start of an upload (and its copy at lines 74-119), including the `catch` path: the new state is `UploadStarted` |
| `AppController.TransferController.HandleDrop` | web/src/App.tsx:17-69 | performs `Step` for a drop |
| `AppController.TransferController.HandleFileChange` | web/src/App.tsx:72-121 | performs `Step` for a file pick |
| `AppController.TransferController.OnUploadProgress` | web/src/App.tsx:38-43 | performs `Step` for a progress tick |
| `AppController.TransferController.OnUploadLoad` | web/src/App.tsx:45-54 | performs `Step` for `onload` with a status and body |
| `AppController.TransferController.OnUploadError` | web/src/App.tsx:56-60 | performs `Step` for `onerror` |
| `AppController.TransferController.HandleDownloadKeyInput` | web/src/App.tsx:272 | performs `Step` for typing a key |
| `AppController.TransferController.HandleDownload` | web/src/App.tsx:124-127 | clears the download error and returns `/deaddrop/<downloadKey>` |
| `AppController.TransferController.OnDownloadSettled` | web/src/App.tsx:128-147 | performs `Step` for the settled fetch and returns exactly `SaveFor` of it |
| `AppController.TransferController.HandleCopyId` | web/src/App.tsx:212-217 | performs `Step` for Copy ID and returns the text written to the clipboard |
| `AppController.TransferController.HandleCopyLink` | web/src/App.tsx:243-249 | performs `Step` for Copy Link and returns the link written to the clipboard |
| `AppController.TransferController.OnRevertTimer` | web/src/App.tsx:216-248 | the earliest pending revert, of Copy ID (line 216) or Copy Link (line 248), fires and clears its own flag only |
| `Server.Posted` | main.go:23-42 | the stored files after a POST: the request under the fresh id on success, nothing new when `os.Create` fails, a truncated file when dumping or writing fails |
| `Server.Retrieve` | main.go:45-88 | the GET answer: 500 for an empty id, 404 for a missing one, 500 when opening or reading fails, otherwise the stored body with its Content-Type and the download-name header |
| `Server.FilenameParam` | main.go:65-71 | the `filename` parameter `mime.ParseMediaType` returned, `""` when parsing failed or there is none |
| `Server.DownloadName` | main.go:65-85 | the announced name: the `filename` parameter when non-empty, otherwise the id plus the first registered extension, otherwise the id plus `.data` |
| `Server.ContentDispositionHeader` | main.go:87 | the response header `attachment; filename=<name>`, the name unquoted |
| `Server.StoredId` | main.go:46-48 | the id is the longest dot-free prefix of the parameter: the text before the first `.` |
| `Server.SameStoredFile` | main.go:46-49 | for a dot-free id, `id` and `id.<anything>` give the same stored id |
| `Server.DownloadNameChoice` | main.go:65-85 | a non-empty `filename` parameter is used verbatim; otherwise id + first registered extension, otherwise id + `.data` |
| `Server.RetrieveCases` | main.go:45-88 | 404 iff the (non-empty) id is not stored; an error iff the id is empty, missing, fails to open or holds a truncated dump; a stream carries the stored body and Content-Type |
| `Server.PostThenGet` | main.go:23-88 | after a successful POST under a dot-free id, GET of the id with or without a `.` suffix streams the stored body, type and name |
| `Server.FailedPostNotServed` | main.go:28-40 | the id of a failed POST is never served |
| `Server.PostKeepsOthers` | main.go:26-28 | a POST leaves every other id as it was |
| `Server.Store.constructor` | main.go:26 | an empty `/tmp`: no id is stored |
| `Server.Store.Post` | main.go:23-43 | answers `{"id": id}` on success and 500 on a failed step, and stores the request (or a truncated file) under the fresh id |
| `Server.Store.Get` | main.go:45-89 | answers exactly `Retrieve` of the current store |
| `RoundTrips.UploadedRequest` | web/src/App.tsx:34-61 | what the server stores for the client's upload (main.go 34-38): the Content-Type set at line 34, the Content-Disposition set at line 36 and the file body sent at line 61 |
| `RoundTrips.ShareLinkRedeemsKey` | web/src/App.tsx:245 | the share link is `/deaddrop/` plus a parameter whose stored id is the key, for a dot-free key |
| `RoundTrips.UploadHeaderCapture` | web/src/App.tsx:36 | the client's own quoted upload header yields the encoded name to the download regex |
| `RoundTrips.FilenameSurvivesTransfer` | main.go:87 | the server's unquoted echo of the encoded name resolves on the client to the original name |
| `RoundTrips.UploadShareRedeem` | main.go:23-89 | a file uploaded, fetched by its share-link parameter and saved by the client keeps its name, bytes and Content-Type |

## Left out

- Networking: the `XMLHttpRequest` and `fetch` transports are not modelled. Their outcomes are
  event arguments: progress `(loaded, total)`, load status and parsed body, transport error,
  fetch result. A synchronous exception during the XHR set-up is the `sendThrows` flag.
- `JSON.parse` is abstracted as `ResponseBody`: unparseable, or an object with an optional `id`.
  An `id` that is not a string, and `undefined` as distinct from `null`, are not distinguished.
- Saving the download (object URL, anchor element, `revokeObjectURL`, App.tsx 137-144) is
  modelled as the returned `SavedFile` only.
- Two more failures reach the `catch` at App.tsx 145: a rejected `res.blob()` after an ok
  response (line 129), and a throw in the saving code (lines 137-144). The model can express
  either only as `FetchRejected`. A throw after `a.click()`, where the file is saved and the
  error is still shown, is not captured.
- `navigator.clipboard.writeText` is modelled as the returned text plus a `clipboardOk` flag.
  The `await` between the write and the flag update is treated as one step.
- `setTimeout` is the `RevertTimer` event. It fires the earliest pending revert, since every
  delay is 1000 ms. Real time is not modelled.
- Rendering (App.tsx 150-286), including the disabled buttons, is not modelled. React's
  batching is not modelled either: the intermediate `setFileExt(null)` is never visible.
- `console.error`, `fmt.Println`, echo's logger, routing and static file serving are left out.
- ProgressPercent: exact rational arithmetic. The floating-point rounding of
  `Math.round(loaded / total * 100)` is not modelled.
- EncodeUriComponent: defined only on ASCII names. The UTF-8 escaping of other characters,
  and the `URIError` on lone surrogates, are not modelled.
- DecodeUriComponent: an escape of a byte 0x80 or above is reported as a decode failure. The
  browser would combine well-formed UTF-8 sequences into characters.
- Go's `mime.ParseMediaType` and `mime.ExtensionsByType` are function parameters of `Retrieve`
  and `Store.Get`. `httputil.DumpRequest` and `http.ReadRequest` are reduced to the stored
  headers and body.
- `xid.New` is the `id` argument of `Store.Post`. Its uniqueness is the requirement
  `id !in files`.
- The `/tmp` directory is the map `files`. Files in `/tmp` that are not uploads are not modelled.
  A truncated dump is assumed never to read back as a request.
