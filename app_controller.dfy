/**
 * The state machine of the client component (web/src/App.tsx): nine state
 * variables updated by event handlers, XHR callbacks, fetch continuations
 * and `setTimeout` callbacks. `AppState` is a snapshot of those variables
 * plus the queue of pending `setTimeout` reverts; `Step` says how one event
 * changes it; the class `TransferController` holds the variables as fields
 * and has one method per event, each proved to perform `Step`.
 */
module AppController {
  import opened Common
  import opened UriComponent
  import opened AppHelpers

  const UploadErrorText := "Error uploading file"
  const DownloadErrorText := "Failed to download file. Check your pickup key."

  /** A selected or dropped file. */
  datatype File = File(name: string, mimeType: string, content: seq<byte>)

  /**
   * An `xhr.upload` progress event. Browsers set `lengthComputable` exactly
   * when the total is known, that is when `total != 0`.
   */
  datatype ProgressEvent = ProgressEvent(loaded: nat, total: nat)
  {
    predicate LengthComputable() { total != 0 }
  }

  /**
   * The response text of a finished upload as `JSON.parse` sees it:
   * `Unparseable` when it throws, otherwise the object's `id` field, `None`
   * when the field is missing.
   */
  datatype ResponseBody = Unparseable | JsonObject(id: Option<string>)

  /**
   * How the `fetch` of a pickup key settles: rejected, or a response. Any
   * other failure that reaches the same `catch` — `res.blob()` rejecting
   * after an ok response, or a throw while saving — is `FetchRejected` too.
   */
  datatype FetchResult =
    | FetchRejected
    | FetchResponse(ok: bool, disposition: Option<string>, body: seq<byte>)

  /** The file handed to the browser's save mechanism. */
  datatype SavedFile = SavedFile(name: string, content: seq<byte>)

  /** Which "Copied!" confirmation a pending `setTimeout` turns off. */
  datatype Flag = CopiedIdFlag | CopiedLinkFlag

  datatype AppState = AppState(
    pickupKey: Option<string>,
    fileExt: Option<string>,
    uploading: bool,
    uploadProgress: nat,
    downloadKey: string,
    downloadError: Option<string>,
    dragActive: bool,
    copiedId: bool,
    copiedLink: bool,
    timers: seq<Flag>)  // scheduled 1000 ms reverts, earliest first

  /** The `useState` initial values; no timer is pending. */
  const Initial := AppState(None, None, false, 0, "", None, false, false, false, [])

  datatype Event =
    | DragOver
    | DragLeave
    | Drop(files: seq<File>, sendThrows: bool)
    | FileChange(selected: Option<seq<File>>, sendThrows: bool)
    | UploadProgress(progress: ProgressEvent)
    | UploadLoad(status: nat, body: ResponseBody)
    | UploadError
    | DownloadKeyInput(text: string)
    | DownloadClick
    | DownloadSettled(result: FetchResult)
    | CopyIdClick(clipboardOk: bool)
    | CopyLinkClick(clipboardOk: bool)
    | RevertTimer

  // ---------------------------------------------------------------------------
  // Transitions
  // ---------------------------------------------------------------------------

  /** The terminal state of a failed upload: the message goes into `pickupKey`. */
  function UploadFailed(s: AppState): AppState {
    s.(uploading := false, uploadProgress := 0, pickupKey := Some(UploadErrorText))
  }

  /**
   * The shared body of `handleDrop` and `handleFileChange` once a file is
   * there: reset, keep the extension of the first file, and hand it to the
   * XHR; `sendThrows` is a synchronous exception from the XHR set-up, which
   * the `catch` turns into a failed upload.
   */
  function UploadStarted(s: AppState, file: File, sendThrows: bool): AppState {
    var started := s.(uploading := true, pickupKey := None, uploadProgress := 0,
                      fileExt := Some(FileExt(file.name)));
    if sendThrows then UploadFailed(started) else started
  }

  /** What is saved after a settled download, `None` when the error is shown instead. */
  function SaveFor(r: FetchResult): Option<SavedFile> {
    if r.FetchRejected? || !r.ok then None
    else match ResolveFilename(r.disposition)
      case None => None
      case Some(name) => Some(SavedFile(name, r.body))
  }

  /** The text `navigator.clipboard.writeText` receives from the Copy ID button. */
  function IdCopyText(s: AppState): Option<string> {
    if Truthy(s.pickupKey) then s.pickupKey else None
  }

  /** The text the Copy Link button writes, given `window.location.origin`. */
  function LinkCopyText(s: AppState, origin: string): Option<string> {
    if Truthy(s.pickupKey) && Truthy(s.fileExt)
    then Some(ShareLink(origin, s.pickupKey.value, s.fileExt.value))
    else None
  }

  /** The path `handleDownload` fetches. */
  function DownloadPath(s: AppState): string {
    "/deaddrop/" + s.downloadKey
  }

  function Step(s: AppState, e: Event): AppState {
    match e
    case DragOver => s.(dragActive := true)
    case DragLeave => s.(dragActive := false)
    case Drop(files, sendThrows) =>
      var s1 := s.(dragActive := false);
      if files == [] then s1 else UploadStarted(s1, files[0], sendThrows)
    case FileChange(selected, sendThrows) =>
      if selected.Some? && |selected.value| > 0
      then UploadStarted(s, selected.value[0], sendThrows)
      else s
    case UploadProgress(ev) =>
      if ev.LengthComputable()
      then s.(uploadProgress := ProgressPercent(ev.loaded, ev.total))
      else s
    case UploadLoad(status, body) =>
      var s1 := s.(uploading := false, uploadProgress := 0);
      if status != 200 then s1.(pickupKey := Some(UploadErrorText))
      else if body.Unparseable? then s1
      else s1.(pickupKey := body.id)
    case UploadError => UploadFailed(s)
    case DownloadKeyInput(text) => s.(downloadKey := text)
    case DownloadClick => s.(downloadError := None)
    case DownloadSettled(r) =>
      if SaveFor(r).None? then s.(downloadError := Some(DownloadErrorText)) else s
    case CopyIdClick(clipboardOk) =>
      if Truthy(s.pickupKey) && clipboardOk
      then s.(copiedId := true, timers := s.timers + [CopiedIdFlag])
      else s
    case CopyLinkClick(clipboardOk) =>
      if Truthy(s.pickupKey) && Truthy(s.fileExt) && clipboardOk
      then s.(copiedLink := true, timers := s.timers + [CopiedLinkFlag])
      else s
    case RevertTimer =>
      if s.timers == [] then s
      else if s.timers[0] == CopiedIdFlag then s.(copiedId := false, timers := s.timers[1..])
      else s.(copiedLink := false, timers := s.timers[1..])
  }

  function Run(s: AppState, events: seq<Event>): AppState
    decreases |events|
  {
    if events == [] then s else Run(Step(s, events[0]), events[1..])
  }

  lemma RunPair(s: AppState, a: Event, b: Event)
    ensures Run(s, [a, b]) == Step(Step(s, a), b)
  {
    assert [a, b][1..] == [b];
    assert Run(s, [a, b]) == Run(Step(s, a), [b]);
    assert [b][1..] == [];
    assert Run(Step(s, a), [b]) == Run(Step(Step(s, a), b), []);
  }

  lemma RunTriple(s: AppState, a: Event, b: Event, c: Event)
    ensures Run(s, [a, b, c]) == Step(Step(Step(s, a), b), c)
  {
    assert [a, b, c][1..] == [b, c];
    RunPair(Step(s, a), b, c);
  }

  // ---------------------------------------------------------------------------
  // Upload
  // ---------------------------------------------------------------------------

  /**
   * Starting an upload (drop or pick with at least one file, set-up not
   * throwing) shows the upload as running from 0%, clears the pickup key,
   * takes the extension of the first file, and leaves the download and copy
   * state alone.
   */
  lemma UploadStartResets(s: AppState, files: seq<File>)
    requires files != []
    ensures var d := Step(s, Drop(files, false));
      d.uploading && d.pickupKey == None && d.uploadProgress == 0 &&
      d.fileExt == Some(FileExt(files[0].name)) && !d.dragActive &&
      d.downloadKey == s.downloadKey && d.downloadError == s.downloadError &&
      d.copiedId == s.copiedId && d.copiedLink == s.copiedLink && d.timers == s.timers
  {
  }

  /** Only the first file counts: further files are silently discarded. */
  lemma OnlyFirstFileCounts(s: AppState, first: File, others: seq<File>, sendThrows: bool)
    ensures Step(s, Drop([first] + others, sendThrows)) == Step(s, Drop([first], sendThrows))
    ensures Step(s, FileChange(Some([first] + others), sendThrows)) ==
            Step(s, FileChange(Some([first]), sendThrows))
  {
  }

  /** The two upload entry points agree, except that a drop also ends the drag highlight. */
  lemma DropMatchesFileChange(s: AppState, files: seq<File>, sendThrows: bool)
    requires files != []
    ensures Step(s, Drop(files, sendThrows)) ==
            Step(s, FileChange(Some(files), sendThrows)).(dragActive := false)
  {
  }

  /** A drop without files only ends the drag highlight; an empty pick changes nothing. */
  lemma EmptySelectionStartsNothing(s: AppState, selected: Option<seq<File>>, sendThrows: bool)
    requires selected.None? || selected.value == []
    ensures Step(s, Drop([], sendThrows)) == s.(dragActive := false)
    ensures Step(s, FileChange(selected, sendThrows)) == s
  {
  }

  /**
   * Every terminal upload event (load, transport error, exception during
   * set-up) leaves the upload stopped at 0%. The pickup key becomes the id
   * for status 200 with a parseable body, the error text for any other
   * status and for the two failure events, and stays as it was when the
   * body does not parse.
   */
  lemma TerminalUploadEvents(s: AppState, status: nat, body: ResponseBody, file: File)
    ensures var l := Step(s, UploadLoad(status, body));
      !l.uploading && l.uploadProgress == 0 &&
      l.pickupKey == (if status != 200 then Some(UploadErrorText)
                      else if body.Unparseable? then s.pickupKey
                      else body.id)
    ensures var f := Step(s, UploadError);
      !f.uploading && f.uploadProgress == 0 && f.pickupKey == Some(UploadErrorText)
    ensures var t := Step(s, FileChange(Some([file]), true));
      !t.uploading && t.uploadProgress == 0 && t.pickupKey == Some(UploadErrorText) &&
      t.fileExt == Some(FileExt(file.name))
  {
  }

  /** A tick updates the percentage only when the length is computable. */
  lemma ProgressTick(s: AppState, ev: ProgressEvent)
    ensures !ev.LengthComputable() ==> Step(s, UploadProgress(ev)) == s
    ensures ev.LengthComputable() && ev.loaded <= ev.total ==>
              Step(s, UploadProgress(ev)).uploadProgress <= 100
    ensures ev.LengthComputable() && ev.loaded == ev.total ==>
              Step(s, UploadProgress(ev)).uploadProgress == 100
  {
    if ev.LengthComputable() && ev.loaded <= ev.total {
      ProgressBounded(ev.loaded, ev.total);
      ProgressEnds(ev.total);
    }
  }

  /** No tick reports more than was sent. */
  ghost predicate TicksWellFormed(events: seq<Event>) {
    forall i :: 0 <= i < |events| && events[i].UploadProgress? ==>
      events[i].progress.loaded <= events[i].progress.total
  }

  /** Over any run of events whose ticks are well formed the percentage stays within [0, 100]. */
  lemma {:induction false} ProgressStaysInRange(s: AppState, events: seq<Event>)
    requires s.uploadProgress <= 100 && TicksWellFormed(events)
    ensures Run(s, events).uploadProgress <= 100
    decreases |events|
  {
    if events != [] {
      var e := events[0];
      if e.UploadProgress? {
        ProgressTick(s, e.progress);
      }
      assert TicksWellFormed(events[1..]) by {
        forall i | 0 <= i < |events[1..]| && events[1..][i].UploadProgress?
          ensures events[1..][i].progress.loaded <= events[1..][i].progress.total
        {
          assert events[1..][i] == events[i + 1];
        }
      }
      ProgressStaysInRange(Step(s, e), events[1..]);
    }
  }

  /**
   * There is no generation counter: a result arriving after a newer upload
   * has started still becomes the shown state.
   */
  lemma LateResultOverwrites(s: AppState, newer: File, staleId: string)
    ensures Run(s, [FileChange(Some([newer]), false), UploadLoad(200, JsonObject(Some(staleId)))]).pickupKey
            == Some(staleId)
  {
    RunPair(s, FileChange(Some([newer]), false), UploadLoad(200, JsonObject(Some(staleId))));
  }

  /**
   * Selecting `<stem>.<ext>` and receiving id `key` (say `notes.txt` and
   * `xk72q`) leaves the key and the extension set and the link
   * `<origin>/deaddrop/<key>.<ext>` (`<origin>/deaddrop/xk72q.txt`) ready to copy.
   */
  lemma PickThenLoadScenario(s: AppState, stem: string, ext: string, mimeType: string,
                             content: seq<byte>, key: string, origin: string)
    requires ext != [] && AllAlnum(ext) && key != []
    ensures var d := Run(s, [FileChange(Some([File(stem + "." + ext, mimeType, content)]), false),
                             UploadLoad(200, JsonObject(Some(key)))]);
      d.pickupKey == Some(key) && d.fileExt == Some(ext) && !d.uploading && d.uploadProgress == 0 &&
      LinkCopyText(d, origin) == Some(origin + "/deaddrop/" + key + "." + ext)
  {
    RunPair(s, FileChange(Some([File(stem + "." + ext, mimeType, content)]), false),
            UploadLoad(200, JsonObject(Some(key))));
    FileExtOfDottedName(stem, ext);
  }

  // ---------------------------------------------------------------------------
  // Download
  // ---------------------------------------------------------------------------

  /**
   * A settled download saves nothing exactly when the fetch was rejected,
   * the response was not ok, or the filename failed to decode; otherwise it
   * saves the body under the resolved filename.
   */
  lemma SaveForCases(r: FetchResult)
    ensures SaveFor(r).None? <==>
              r.FetchRejected? || !r.ok || ResolveFilename(r.disposition).None?
    ensures SaveFor(r).Some? ==>
              SaveFor(r).value == SavedFile(ResolveFilename(r.disposition).value, r.body)
  {
  }

  /**
   * Clicking Download and letting the fetch settle shows exactly the one
   * download error message when nothing was saved, and no error otherwise.
   */
  lemma DownloadOutcome(s: AppState, r: FetchResult)
    ensures var d := Run(s, [DownloadClick, DownloadSettled(r)]);
      d.downloadError == (if SaveFor(r).Some? then None else Some(DownloadErrorText)) &&
      d == s.(downloadError := d.downloadError)
  {
    RunPair(s, DownloadClick, DownloadSettled(r));
  }

  /** A rejected key (HTTP 404, so not ok) yields the error message and no save. */
  lemma RejectedKeyScenario(s: AppState, disposition: Option<string>, body: seq<byte>)
    ensures var r := FetchResponse(false, disposition, body);
      SaveFor(r).None? &&
      Run(s, [DownloadClick, DownloadSettled(r)]).downloadError == Some(DownloadErrorText)
  {
    RunPair(s, DownloadClick, DownloadSettled(FetchResponse(false, disposition, body)));
  }

  // ---------------------------------------------------------------------------
  // Copy buttons and their reverts
  // ---------------------------------------------------------------------------

  /**
   * Copy ID acts only on a non-empty pickup key and copies it; Copy Link acts
   * only when the key and the extension are both non-empty and copies
   * `origin + "/deaddrop/" + key + "." + ext`. A click that acts, with the
   * clipboard write succeeding, shows its confirmation and schedules one revert.
   */
  lemma CopyClicks(s: AppState, origin: string, ok: bool)
    ensures IdCopyText(s).Some? <==> Truthy(s.pickupKey)
    ensures IdCopyText(s).Some? ==> IdCopyText(s) == s.pickupKey
    ensures LinkCopyText(s, origin).Some? <==> Truthy(s.pickupKey) && Truthy(s.fileExt)
    ensures LinkCopyText(s, origin).Some? ==>
              LinkCopyText(s, origin).value ==
                origin + "/deaddrop/" + s.pickupKey.value + "." + s.fileExt.value
    ensures Step(s, CopyIdClick(ok)) ==
              if IdCopyText(s).Some? && ok then s.(copiedId := true, timers := s.timers + [CopiedIdFlag])
              else s
    ensures Step(s, CopyLinkClick(ok)) ==
              if LinkCopyText(s, origin).Some? && ok
              then s.(copiedLink := true, timers := s.timers + [CopiedLinkFlag])
              else s
  {
  }

  /** The two confirmations never affect each other. */
  lemma CopyFlagsIndependent(s: AppState, ok: bool)
    ensures Step(s, CopyIdClick(ok)).copiedLink == s.copiedLink
    ensures Step(s, CopyLinkClick(ok)).copiedId == s.copiedId
    ensures s.timers != [] && s.timers[0] == CopiedIdFlag ==> Step(s, RevertTimer).copiedLink == s.copiedLink
    ensures s.timers != [] && s.timers[0] == CopiedLinkFlag ==> Step(s, RevertTimer).copiedId == s.copiedId
  {
  }

  /** Every confirmation on screen has a revert pending for it. */
  ghost predicate FlagsHavePendingRevert(s: AppState) {
    (s.copiedId ==> CopiedIdFlag in s.timers) && (s.copiedLink ==> CopiedLinkFlag in s.timers)
  }

  lemma StepKeepsFlagsPending(s: AppState, e: Event)
    requires FlagsHavePendingRevert(s)
    ensures FlagsHavePendingRevert(Step(s, e))
  {
    if e.RevertTimer? && s.timers != [] {
      assert s.timers == [s.timers[0]] + s.timers[1..];
    }
  }

  lemma {:induction false} RunKeepsFlagsPending(s: AppState, events: seq<Event>)
    requires FlagsHavePendingRevert(s)
    ensures FlagsHavePendingRevert(Run(s, events))
    decreases |events|
  {
    if events != [] {
      StepKeepsFlagsPending(s, events[0]);
      RunKeepsFlagsPending(Step(s, events[0]), events[1..]);
    }
  }

  /** `n` revert callbacks in a row. */
  function Reverts(n: nat): (r: seq<Event>)
    ensures |r| == n && forall i :: 0 <= i < n ==> r[i] == RevertTimer
  {
    if n == 0 then [] else [RevertTimer] + Reverts(n - 1)
  }

  /**
   * Once every pending revert has fired, neither confirmation is shown: a
   * "Copied!" never stays on screen for good.
   */
  lemma {:induction false} RevertsClearFlags(s: AppState)
    requires FlagsHavePendingRevert(s)
    ensures var d := Run(s, Reverts(|s.timers|));
      !d.copiedId && !d.copiedLink && d.timers == []
    decreases |s.timers|
  {
    if s.timers != [] {
      var n := |s.timers|;
      StepKeepsFlagsPending(s, RevertTimer);
      var next := Step(s, RevertTimer);
      assert Reverts(n)[1..] == Reverts(n - 1);
      RevertsClearFlags(next);
    }
  }

  /**
   * Reverts are never cancelled: after two Copy ID clicks the revert of the
   * first click hides the confirmation of the second, while its own revert is
   * still pending.
   */
  lemma EarlierRevertHidesLaterCopy(s: AppState)
    requires Truthy(s.pickupKey) && s.timers == []
    ensures var d := Run(s, [CopyIdClick(true), CopyIdClick(true), RevertTimer]);
      !d.copiedId && d.timers == [CopiedIdFlag]
  {
    RunTriple(s, CopyIdClick(true), CopyIdClick(true), RevertTimer);
  }

  // ---------------------------------------------------------------------------
  // The component
  // ---------------------------------------------------------------------------

  class TransferController {
    var pickupKey: Option<string>
    var fileExt: Option<string>
    var uploading: bool
    var uploadProgress: nat
    var downloadKey: string
    var downloadError: Option<string>
    var dragActive: bool
    var copiedId: bool
    var copiedLink: bool
    var timers: seq<Flag>

    function View(): AppState
      reads this
    {
      AppState(pickupKey, fileExt, uploading, uploadProgress, downloadKey,
               downloadError, dragActive, copiedId, copiedLink, timers)
    }

    ghost predicate Valid()
      reads this
    {
      FlagsHavePendingRevert(View())
    }

    constructor ()
      ensures View() == Initial && Valid()
    {
      pickupKey, fileExt, uploading, uploadProgress := None, None, false, 0;
      downloadKey, downloadError, dragActive := "", None, false;
      copiedId, copiedLink, timers := false, false, [];
    }

    method HandleDragOver()
      requires Valid()
      modifies this
      ensures Valid() && View() == Step(old(View()), DragOver)
    {
      dragActive := true;
    }

    method HandleDragLeave()
      requires Valid()
      modifies this
      ensures Valid() && View() == Step(old(View()), DragLeave)
    {
      dragActive := false;
    }

    /** The part `handleDrop` and `handleFileChange` share once they have a file. */
    method StartUpload(file: File, sendThrows: bool)
      requires Valid()
      modifies this
      ensures Valid() && View() == UploadStarted(old(View()), file, sendThrows)
    {
      uploading := true;
      pickupKey := None;
      fileExt := None;
      uploadProgress := 0;
      fileExt := Some(FileExt(file.name));
      if sendThrows {
        uploading := false;
        uploadProgress := 0;
        pickupKey := Some(UploadErrorText);
      }
    }

    method HandleDrop(files: seq<File>, sendThrows: bool)
      requires Valid()
      modifies this
      ensures Valid() && View() == Step(old(View()), Drop(files, sendThrows))
    {
      dragActive := false;
      if |files| == 0 {
        return;
      }
      StartUpload(files[0], sendThrows);
    }

    method HandleFileChange(selected: Option<seq<File>>, sendThrows: bool)
      requires Valid()
      modifies this
      ensures Valid() && View() == Step(old(View()), FileChange(selected, sendThrows))
    {
      if selected.Some? && |selected.value| > 0 {
        StartUpload(selected.value[0], sendThrows);
      }
    }

    method OnUploadProgress(ev: ProgressEvent)
      requires Valid()
      modifies this
      ensures Valid() && View() == Step(old(View()), UploadProgress(ev))
    {
      if ev.LengthComputable() {
        var percent := ProgressPercent(ev.loaded, ev.total);
        uploadProgress := percent;
      }
    }

    method OnUploadLoad(status: nat, body: ResponseBody)
      requires Valid()
      modifies this
      ensures Valid() && View() == Step(old(View()), UploadLoad(status, body))
    {
      uploading := false;
      uploadProgress := 0;
      if status == 200 {
        match body
        case Unparseable =>  // JSON.parse throws out of the callback
        case JsonObject(id) => pickupKey := id;
      } else {
        pickupKey := Some(UploadErrorText);
      }
    }

    method OnUploadError()
      requires Valid()
      modifies this
      ensures Valid() && View() == Step(old(View()), UploadError)
    {
      uploading := false;
      uploadProgress := 0;
      pickupKey := Some(UploadErrorText);
    }

    method HandleDownloadKeyInput(text: string)
      requires Valid()
      modifies this
      ensures Valid() && View() == Step(old(View()), DownloadKeyInput(text))
    {
      downloadKey := text;
    }

    /** Clears the error and returns the path to fetch. */
    method HandleDownload() returns (path: string)
      requires Valid()
      modifies this
      ensures Valid() && View() == Step(old(View()), DownloadClick)
      ensures path == DownloadPath(old(View()))
    {
      downloadError := None;
      path := "/deaddrop/" + downloadKey;
    }

    /** The continuation of `handleDownload` once the fetch settles; returns what is saved. */
    method OnDownloadSettled(result: FetchResult) returns (saved: Option<SavedFile>)
      requires Valid()
      modifies this
      ensures Valid() && View() == Step(old(View()), DownloadSettled(result))
      ensures saved == SaveFor(result)
    {
      saved := None;
      if result.FetchRejected? || !result.ok {
        downloadError := Some(DownloadErrorText);
        return;
      }
      var filename := DefaultFilename;
      var disposition := result.disposition;
      if disposition.Some? && disposition.value != "" {
        var m := FilenameCapture(disposition.value);
        if m.Some? {
          var decoded := DecodeUriComponent(m.value);
          if decoded.None? {
            downloadError := Some(DownloadErrorText);
            return;
          }
          filename := decoded.value;
        }
      }
      saved := Some(SavedFile(filename, result.body));
    }

    /** Returns the text written to the clipboard, if the click acts. */
    method HandleCopyId(clipboardOk: bool) returns (copied: Option<string>)
      requires Valid()
      modifies this
      ensures Valid() && View() == Step(old(View()), CopyIdClick(clipboardOk))
      ensures copied == IdCopyText(old(View()))
    {
      copied := None;
      if pickupKey.Some? && pickupKey.value != "" {
        copied := pickupKey;
        if clipboardOk {
          copiedId := true;
          timers := timers + [CopiedIdFlag];
        }
      }
    }

    method HandleCopyLink(origin: string, clipboardOk: bool) returns (copied: Option<string>)
      requires Valid()
      modifies this
      ensures Valid() && View() == Step(old(View()), CopyLinkClick(clipboardOk))
      ensures copied == LinkCopyText(old(View()), origin)
    {
      copied := None;
      if pickupKey.Some? && pickupKey.value != "" && fileExt.Some? && fileExt.value != "" {
        var link := origin + "/deaddrop/" + pickupKey.value + "." + fileExt.value;
        copied := Some(link);
        if clipboardOk {
          copiedLink := true;
          timers := timers + [CopiedLinkFlag];
        }
      }
    }

    /** The earliest pending `setTimeout` revert fires. */
    method OnRevertTimer()
      requires Valid() && timers != []
      modifies this
      ensures Valid() && View() == Step(old(View()), RevertTimer)
    {
      var flag := timers[0];
      timers := timers[1..];
      if flag == CopiedIdFlag {
        copiedId := false;
      } else {
        copiedLink := false;
      }
      StepKeepsFlagsPending(old(View()), RevertTimer);
    }
  }
}
