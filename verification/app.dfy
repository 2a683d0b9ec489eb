/**
  The application shell (`App`): the view state, the handlers that change
  it, and the choice of screen.

  The state is the record of nullable fields the shell keeps. Files and the
  object URLs created for them are opaque: a file is a number compared by
  identity, and the URL `URL.createObjectURL` returns is a parameter of the
  handler that creates it. Every handler returns the new state together
  with the URLs it revokes. The remote extraction is a `Reply` the handler
  receives: the extracted text or a failure.

  A condition on a nullable string field follows JavaScript truthiness: an
  empty string counts as absent (`Truthy`).
*/
module App {
  import opened Wrappers
  import opened History

  /** An opaque `File` object, compared by identity. */
  type FileId = nat

  datatype View = CaptureTab | HistoryTab

  /** The outcome of the remote text extraction. */
  datatype Reply = Extracted(text: string) | Failed

  /** The message the error screen shows after a failed extraction. */
  const AnalyzeFailureMessage: string := "Failed to analyze image. Please try again."

  datatype AppState = AppState(
    view: View,
    imageFile: Option<FileId>,
    originalImageFile: Option<FileId>,
    imageUrl: Option<Url>,
    extractedText: Option<string>,
    isLoading: bool,
    error: Option<string>,
    isCropping: bool,
    history: seq<Capture>,
    stored: Stored)

  /** A new state and the URLs revoked on the way to it. */
  datatype Transition = Transition(state: AppState, revoked: multiset<Url>)

  /** The screen `renderContent` returns, with what it is given to show. */
  datatype Screen =
    | HistoryScreen(entries: seq<Capture>)
    | LoadingScreen
    | ErrorScreen(message: string)
    | ResultScreen(text: string, imageUrl: Url)
    | CropperScreen(imageUrl: Url)
    | PreviewScreen(imageUrl: Url, canRevert: bool)
    | PromptScreen

  /** A nullable string used as a condition: present and non-empty. */
  predicate Truthy(v: Option<string>) {
    v.Some? && v.value != ""
  }

  /** The URL `resetState` and the crop and revert handlers revoke. */
  function WorkingUrl(s: AppState): (m: multiset<Url>)
    ensures Truthy(s.imageUrl) ==> m == multiset{s.imageUrl.value}
    ensures !Truthy(s.imageUrl) ==> m == multiset{}
  {
    if Truthy(s.imageUrl) then multiset{s.imageUrl.value} else multiset{}
  }

  /** The state after mounting and loading the stored history. */
  function Initial(stored: Stored, read: StorageOutcome): (s: AppState)
    ensures RenderContent(s) == PromptScreen && !CanAnalyze(s) && !RevertOffered(s)
    ensures read == Completed && stored.Snapshot? ==> s.history == stored.entries
    ensures read == Threw || !stored.Snapshot? ==> s.history == []
    ensures s.stored == stored
    ensures s.view == CaptureTab && s.imageFile.None? && s.originalImageFile.None? && s.imageUrl.None?
    ensures s.extractedText.None? && s.error.None? && !s.isLoading && !s.isCropping
  {
    AppState(CaptureTab, None, None, None, None, false, None, false, LoadHistory(stored, read), stored)
  }

  /** The undo button is offered: the working file is not the original one
      and there is an original. */
  predicate RevertOffered(s: AppState) {
    s.imageFile != s.originalImageFile && s.originalImageFile.Some?
  }

  // ---------------------------------------------------------------------
  // Screen selection
  // ---------------------------------------------------------------------

  /** `renderContent`. */
  function RenderContent(s: AppState): (scr: Screen)
    ensures scr.HistoryScreen? ==> scr.entries == s.history
    ensures scr.ErrorScreen? ==> s.error == Some(scr.message)
    ensures scr.ResultScreen? ==> s.extractedText == Some(scr.text) && s.imageUrl == Some(scr.imageUrl)
    ensures scr.CropperScreen? ==> s.imageUrl == Some(scr.imageUrl)
    ensures scr.PreviewScreen? ==> s.imageUrl == Some(scr.imageUrl) && scr.canRevert == RevertOffered(s)
  {
    if s.view == HistoryTab then HistoryScreen(s.history)
    else if s.isLoading then LoadingScreen
    else if Truthy(s.error) then ErrorScreen(s.error.value)
    else if s.extractedText.Some? && Truthy(s.imageUrl) then ResultScreen(s.extractedText.value, s.imageUrl.value)
    else if Truthy(s.imageUrl) then
      if s.isCropping then CropperScreen(s.imageUrl.value) else PreviewScreen(s.imageUrl.value, RevertOffered(s))
    else PromptScreen
  }

  /** The rank of a screen in the order `renderContent` tries them. */
  function Rank(scr: Screen): nat {
    match scr
    case HistoryScreen(_) => 0
    case LoadingScreen => 1
    case ErrorScreen(_) => 2
    case ResultScreen(_, _) => 3
    case CropperScreen(_) => 4
    case PreviewScreen(_, _) => 5
    case PromptScreen => 6
  }

  /** The condition under which the screen of rank `k` asks to be shown,
      regardless of the others. */
  predicate Wants(s: AppState, k: nat) {
    if k == 0 then s.view == HistoryTab
    else if k == 1 then s.isLoading
    else if k == 2 then Truthy(s.error)
    else if k == 3 then s.extractedText.Some? && Truthy(s.imageUrl)
    else if k == 4 then Truthy(s.imageUrl) && s.isCropping
    else if k == 5 then Truthy(s.imageUrl)
    else true
  }

  /** The shown screen's own condition holds and no earlier one's does. */
  lemma RenderedIsFirstWanted(s: AppState)
    ensures Wants(s, Rank(RenderContent(s)))
    ensures forall j :: 0 <= j < Rank(RenderContent(s)) ==> !Wants(s, j)
  {
  }

  /** The shown screen is the first, in the order history, loading, error,
      result, cropper, preview, prompt, whose condition holds. */
  lemma RenderPriority(s: AppState, k: nat)
    requires k <= 6
    ensures Rank(RenderContent(s)) == k <==> Wants(s, k) && forall j :: 0 <= j < k ==> !Wants(s, j)
  {
    RenderedIsFirstWanted(s);
  }

  // ---------------------------------------------------------------------
  // Handlers
  // ---------------------------------------------------------------------

  /** `resetState`: revokes the working URL and clears the working slots,
      the result, the error and the loading and crop flags; the tab and the
      history stay. */
  function ResetState(s: AppState): (t: Transition)
    ensures t.revoked == WorkingUrl(s)
    ensures t.state.imageFile.None? && t.state.originalImageFile.None? && t.state.imageUrl.None?
    ensures t.state.extractedText.None? && t.state.error.None?
    ensures !t.state.isLoading && !t.state.isCropping
    ensures t.state.view == s.view && t.state.history == s.history && t.state.stored == s.stored
    ensures s.view == CaptureTab ==> RenderContent(t.state) == PromptScreen
  {
    Transition(
      s.(imageFile := None, originalImageFile := None, imageUrl := None, extractedText := None,
         isLoading := false, error := None, isCropping := false),
      WorkingUrl(s))
  }

  /** `handleFileChange`: with no file chosen nothing happens; otherwise a
      full reset, then the file becomes both the working and the original
      file, shown through the new URL `url`. */
  function HandleFileChange(s: AppState, file: Option<FileId>, url: Url): (t: Transition)
    ensures file.None? ==> t == Transition(s, multiset{})
    ensures file.Some? ==> t.revoked == WorkingUrl(s)
    ensures file.Some? ==> t.state.imageFile == file && t.state.originalImageFile == file
    ensures file.Some? ==> t.state.imageUrl == Some(url)
    ensures file.Some? ==> t.state.extractedText.None? && t.state.error.None?
    ensures file.Some? ==> !t.state.isLoading && !t.state.isCropping && !RevertOffered(t.state)
    ensures t.state.view == s.view && t.state.history == s.history && t.state.stored == s.stored
    ensures file.Some? && s.view == CaptureTab && url != "" ==> RenderContent(t.state) == PreviewScreen(url, false)
  {
    if file.None? then Transition(s, multiset{})
    else
      var r := ResetState(s);
      Transition(r.state.(imageFile := file, originalImageFile := file, imageUrl := Some(url)), r.revoked)
  }

  /** The crop button: enter crop mode. */
  function StartCrop(s: AppState): (s': AppState)
    ensures s'.isCropping && s'.(isCropping := s.isCropping) == s
    ensures RenderContent(s).PreviewScreen? ==> RenderContent(s') == CropperScreen(RenderContent(s).imageUrl)
  {
    s.(isCropping := true)
  }

  /** `handleCropConfirm`: revokes the old URL, installs the cropped file
      with its new URL and leaves crop mode; the original file stays. */
  function HandleCropConfirm(s: AppState, cropped: FileId, url: Url): (t: Transition)
    ensures t.revoked == WorkingUrl(s)
    ensures t.state.imageFile == Some(cropped) && t.state.imageUrl == Some(url)
    ensures t.state.originalImageFile == s.originalImageFile
    ensures !t.state.isCropping
    ensures t.state.extractedText == s.extractedText && t.state.error == s.error
    ensures t.state.isLoading == s.isLoading && t.state.view == s.view && t.state.history == s.history
    ensures t.state.stored == s.stored
    ensures t.state.(imageFile := s.imageFile, imageUrl := s.imageUrl, isCropping := s.isCropping) == s
    ensures s.originalImageFile.Some? && Some(cropped) != s.originalImageFile ==> RevertOffered(t.state)
  {
    Transition(s.(imageFile := Some(cropped), imageUrl := Some(url), isCropping := false), WorkingUrl(s))
  }

  /** `handleCropCancel`: leave crop mode and change nothing else. */
  function HandleCropCancel(s: AppState): (s': AppState)
    ensures !s'.isCropping
    ensures s'.(isCropping := s.isCropping) == s
  {
    s.(isCropping := false)
  }

  /** Cancelling a crop returns to the state before it began. */
  lemma CancelUndoesStartCrop(s: AppState)
    requires !s.isCropping
    ensures HandleCropCancel(StartCrop(s)) == s
  {
  }

  /** `handleRevert`: without an original nothing happens; otherwise the
      original becomes the working file again, shown through the new URL
      `url`, and the old URL is revoked. */
  function HandleRevert(s: AppState, url: Url): (t: Transition)
    ensures s.originalImageFile.None? ==> t == Transition(s, multiset{})
    ensures s.originalImageFile.Some? ==> t.revoked == WorkingUrl(s)
    ensures s.originalImageFile.Some? ==> t.state.imageFile == s.originalImageFile && t.state.imageUrl == Some(url)
    ensures t.state.originalImageFile == s.originalImageFile && !RevertOffered(t.state)
    ensures t.state.extractedText == s.extractedText && t.state.isCropping == s.isCropping
    ensures t.state.(imageFile := s.imageFile, imageUrl := s.imageUrl) == s
  {
    if s.originalImageFile.None? then Transition(s, multiset{})
    else Transition(s.(imageFile := s.originalImageFile, imageUrl := Some(url)), WorkingUrl(s))
  }

  /** Undo after a crop brings back the file first chosen. */
  lemma RevertUndoesCrop(s: AppState, cropped: FileId, url1: Url, url2: Url)
    requires s.originalImageFile.Some?
    ensures HandleRevert(HandleCropConfirm(s, cropped, url1).state, url2).state.imageFile == s.originalImageFile
  {
  }

  /** The guard of `handleAnalyzeClick`: a working file and a URL. */
  predicate CanAnalyze(s: AppState) {
    s.imageFile.Some? && Truthy(s.imageUrl)
  }

  /** The synchronous start of `handleAnalyzeClick`: loading on, error and
      result cleared. */
  function BeginAnalyze(s: AppState): (s': AppState)
    requires CanAnalyze(s)
    ensures s'.isLoading && s'.error.None? && s'.extractedText.None?
    ensures s'.(isLoading := s.isLoading, error := s.error, extractedText := s.extractedText) == s
    ensures s.view == CaptureTab ==> RenderContent(s') == LoadingScreen
  {
    s.(isLoading := true, error := None, extractedText := None)
  }

  /** The end of `handleAnalyzeClick` once the reply arrives, for the URL
      `image` taken when the click happened: on success the text is shown
      and a capture of `image` with that text is added to the history; on
      failure the fixed message is shown. Loading is off either way. */
  function FinishAnalyze(s: AppState, image: Url, reply: Reply, id: string, now: int, write: StorageOutcome): (t: Transition)
    ensures !t.state.isLoading
    ensures reply.Extracted? ==> t.state.extractedText == Some(reply.text)
    ensures reply.Extracted? ==>
              var u := AddCapture(s.history, s.stored, NewCapture(id, image, reply.text), now, write);
              t.state.history == u.history && t.state.stored == u.stored && t.revoked == u.revoked
    ensures reply.Failed? ==> t.state.error == Some(AnalyzeFailureMessage) && t.revoked == multiset{}
    ensures reply.Failed? ==> t.state.history == s.history && t.state.extractedText == s.extractedText
    ensures reply.Extracted? ==>
              t.state.(extractedText := s.extractedText, history := s.history, stored := s.stored, isLoading := s.isLoading) == s
    ensures reply.Failed? ==> t.state.(error := s.error, isLoading := s.isLoading) == s
  {
    match reply
    case Extracted(text) =>
      var u := AddCapture(s.history, s.stored, NewCapture(id, image, text), now, write);
      Transition(s.(extractedText := Some(text), history := u.history, stored := u.stored, isLoading := false), u.revoked)
    case Failed =>
      Transition(s.(error := Some(AnalyzeFailureMessage), isLoading := false), multiset{})
  }

  /** `handleAnalyzeClick` run to completion with no other event in
      between. */
  function HandleAnalyzeClick(s: AppState, reply: Reply, id: string, now: int, write: StorageOutcome): (t: Transition)
    ensures !CanAnalyze(s) ==> t == Transition(s, multiset{})
    ensures CanAnalyze(s) ==> !t.state.isLoading
    ensures CanAnalyze(s) && reply.Extracted? ==>
              && t.state.extractedText == Some(reply.text) && t.state.error.None?
              && t.state.history == Push(s.history, Capture(id, s.imageUrl.value, reply.text, now)).entries
              && t.state.history[0] == Capture(id, s.imageUrl.value, reply.text, now)
              && t.revoked == Push(s.history, Capture(id, s.imageUrl.value, reply.text, now)).revoked
              && t.state.stored == Persist(t.state.history, s.stored, write)
    ensures CanAnalyze(s) && reply.Failed? ==>
              && t.state.error == Some(AnalyzeFailureMessage) && t.state.extractedText.None?
              && t.state.history == s.history && t.state.stored == s.stored && t.revoked == multiset{}
    ensures CanAnalyze(s) ==>
              t.state.(extractedText := s.extractedText, error := s.error, isLoading := s.isLoading,
                       history := s.history, stored := s.stored) == s
    ensures CanAnalyze(s) && s.view == CaptureTab ==>
              RenderContent(t.state) ==
                (if reply.Extracted? then ResultScreen(reply.text, s.imageUrl.value) else ErrorScreen(AnalyzeFailureMessage))
  {
    if !CanAnalyze(s) then Transition(s, multiset{})
    else FinishAnalyze(BeginAnalyze(s), s.imageUrl.value, reply, id, now, write)
  }

  /** After a failure the error screen's retry runs the same request again:
      the working file and URL are the ones that failed. */
  lemma RetryRepeatsRequest(s: AppState, id: string, now: int, write: StorageOutcome)
    requires CanAnalyze(s)
    ensures var t := HandleAnalyzeClick(s, Failed, id, now, write).state;
            CanAnalyze(t) && t.imageFile == s.imageFile && t.imageUrl == s.imageUrl
  {
  }

  /** `handleHistoryItemSelect`: a reset, then the item's image and text
      are shown on the capture tab with no working file. */
  function HandleHistoryItemSelect(s: AppState, item: Capture): (t: Transition)
    ensures t.revoked == WorkingUrl(s)
    ensures t.state.imageUrl == Some(item.image) && t.state.extractedText == Some(item.text)
    ensures t.state.imageFile.None? && t.state.originalImageFile.None?
    ensures t.state.view == CaptureTab && !CanAnalyze(t.state)
    ensures t.state.error.None? && !t.state.isLoading && !t.state.isCropping
    ensures t.state.history == s.history && t.state.stored == s.stored
    ensures item.image != "" ==> RenderContent(t.state) == ResultScreen(item.text, item.image)
  {
    var r := ResetState(s);
    Transition(r.state.(imageUrl := Some(item.image), extractedText := Some(item.text), imageFile := None, view := CaptureTab), r.revoked)
  }

  /** A result opened from the history cannot be analyzed again. */
  lemma HistoryResultIsNotReanalyzed(s: AppState, item: Capture, reply: Reply, id: string, now: int, write: StorageOutcome)
    ensures var t := HandleHistoryItemSelect(s, item).state;
            HandleAnalyzeClick(t, reply, id, now, write) == Transition(t, multiset{})
  {
  }

  /** The history screen's "Clear All". */
  function HandleClearHistory(s: AppState, remove: StorageOutcome): (t: Transition)
    ensures t.state.history == [] && t.revoked == BlobImages(s.history)
    ensures remove == Completed ==> t.state.stored == Missing
    ensures remove == Threw ==> t.state.stored == s.stored
    ensures t.state.(history := s.history, stored := s.stored) == s
  {
    var u := ClearHistory(s.history, s.stored, remove);
    Transition(s.(history := u.history, stored := u.stored), u.revoked)
  }

  /** The bottom navigation: switch tab and change nothing else. */
  function SetView(s: AppState, v: View): (s': AppState)
    ensures s'.view == v && s'.(view := s.view) == s
  {
    s.(view := v)
  }

  /** The result screen's text area: the edited text replaces the result. */
  function EditText(s: AppState, text: string): (s': AppState)
    ensures s'.extractedText == Some(text) && s'.(extractedText := s.extractedText) == s
    ensures RenderContent(s).ResultScreen? ==> RenderContent(s') == ResultScreen(text, RenderContent(s).imageUrl)
  {
    s.(extractedText := Some(text))
  }

  // ---------------------------------------------------------------------
  // Events offered by the screens, and what every reachable state keeps
  // ---------------------------------------------------------------------

  /** A user action, with what the environment supplies for it. */
  datatype Event =
    | ChooseFile(file: Option<FileId>, url: Url)
    | BeginCrop
    | ConfirmCrop(cropped: FileId, url: Url)
    | CancelCrop
    | Undo(url: Url)
    | Analyze(reply: Reply, id: string, now: int, write: StorageOutcome)
    | StartOver
    | Edit(text: string)
    | OpenHistoryItem(index: nat)
    | ClearAll(remove: StorageOutcome)
    | SwitchTab(view: View)

  /** The events the shown screen offers: the file input on the prompt;
      cancel, undo (when offered), crop and analyze on the preview; confirm
      and cancel on the cropper; retry on the error screen; editing and
      "Scan Another" on the result; the items and "Clear All" (when there
      are items) on the history; the tabs everywhere. */
  predicate Enabled(s: AppState, e: Event)
    ensures Enabled(s, e) && (e.OpenHistoryItem? || e.ClearAll?) ==> s.view == HistoryTab
    ensures Enabled(s, e) && !e.OpenHistoryItem? && !e.ClearAll? && !e.SwitchTab? ==>
              s.view == CaptureTab && !s.isLoading
  {
    var scr := RenderContent(s);
    match e
    case ChooseFile(_, _) => scr.PromptScreen?
    case BeginCrop => scr.PreviewScreen?
    case ConfirmCrop(_, _) => scr.CropperScreen?
    case CancelCrop => scr.CropperScreen?
    case Undo(_) => scr.PreviewScreen? && scr.canRevert
    case Analyze(_, _, _, _) => scr.PreviewScreen? || scr.ErrorScreen?
    case StartOver => scr.PreviewScreen? || scr.ResultScreen?
    case Edit(_) => scr.ResultScreen?
    case OpenHistoryItem(i) => scr.HistoryScreen? && i < |s.history|
    case ClearAll(_) => scr.HistoryScreen? && |s.history| > 0
    case SwitchTab(_) => true
  }

  /** The handler each event runs. */
  function Step(s: AppState, e: Event): (t: Transition)
    ensures !e.Analyze? && !e.ClearAll? ==> t.state.history == s.history && t.state.stored == s.stored
    ensures e.SwitchTab? ==> t.state.view == e.view
    ensures !e.SwitchTab? && !(e.OpenHistoryItem? && e.index < |s.history|) ==> t.state.view == s.view
  {
    match e
    case ChooseFile(file, url) => HandleFileChange(s, file, url)
    case BeginCrop => Transition(StartCrop(s), multiset{})
    case ConfirmCrop(cropped, url) => HandleCropConfirm(s, cropped, url)
    case CancelCrop => Transition(HandleCropCancel(s), multiset{})
    case Undo(url) => HandleRevert(s, url)
    case Analyze(reply, id, now, write) => HandleAnalyzeClick(s, reply, id, now, write)
    case StartOver => ResetState(s)
    case Edit(text) => Transition(EditText(s, text), multiset{})
    case OpenHistoryItem(i) =>
      if i < |s.history| then HandleHistoryItemSelect(s, s.history[i]) else Transition(s, multiset{})
    case ClearAll(remove) => HandleClearHistory(s, remove)
    case SwitchTab(v) => Transition(SetView(s, v), multiset{})
  }

  /** Every URL an event revokes is the working URL or an image in the
      history. */
  lemma StepRevokesOnlyKnownUrls(s: AppState, e: Event)
    ensures forall u :: u in Step(s, e).revoked ==> u in WorkingUrl(s) || u in Images(s.history)
  {
    match e
    case Analyze(reply, id, now, write) => AnalyzeRevokesOnlyOldestImage(s, reply, id, now, write);
    case ClearAll(remove) =>
      forall u | u in HandleClearHistory(s, remove).revoked
        ensures u in Images(s.history)
      {
        BlobImagesCounts(s.history, u);
      }
    case _ =>
  }

  /** An analysis revokes at most the image of the capture it pushes out. */
  lemma AnalyzeRevokesOnlyOldestImage(s: AppState, reply: Reply, id: string, now: int, write: StorageOutcome)
    ensures forall u :: u in HandleAnalyzeClick(s, reply, id, now, write).revoked ==>
              |s.history| >= MaxHistoryItems && u == s.history[|s.history| - 1].image && u in Images(s.history)
  {
  }

  /** What every state reached through offered events keeps: the working and
      original slots are filled together; a URL without a working file comes
      from the history and so has a result; crop mode has a working file; an
      error is the extraction failure, kept with the image that failed so that
      retrying can run; nothing is left loading; and the history stays within
      the cap. */
  predicate Invariant(s: AppState) {
    && (s.imageFile.Some? <==> s.originalImageFile.Some?)
    && (s.imageFile.None? && Truthy(s.imageUrl) ==> s.extractedText.Some?)
    && (s.isCropping ==> s.imageFile.Some?)
    && (s.error.Some? ==> s.error == Some(AnalyzeFailureMessage) && CanAnalyze(s))
    && !s.isLoading
    && |s.history| <= MaxHistoryItems
  }

  /** The state after start-up keeps the invariant when the stored list is
      within the cap. */
  lemma InitialInvariant(stored: Stored, read: StorageOutcome)
    requires |LoadHistory(stored, read)| <= MaxHistoryItems
    ensures Invariant(Initial(stored, read))
  {
  }

  /** Every offered event keeps the invariant. */
  lemma StepKeepsInvariant(s: AppState, e: Event)
    requires Invariant(s) && Enabled(s, e)
    ensures Invariant(Step(s, e).state)
  {
    match e
    case ChooseFile(_, _) =>
    case BeginCrop =>
    case ConfirmCrop(_, _) =>
    case CancelCrop =>
    case Undo(_) =>
    case Analyze(reply, id, now, write) => AnalyzeKeepsInvariant(s, reply, id, now, write);
    case StartOver =>
    case Edit(_) =>
    case OpenHistoryItem(_) =>
    case ClearAll(_) =>
    case SwitchTab(_) =>
  }

  /** Analyzing from the preview or retrying from the error screen keeps the
      invariant: the working file and URL stay, loading ends, and the
      history grows by at most one entry within the cap. */
  lemma AnalyzeKeepsInvariant(s: AppState, reply: Reply, id: string, now: int, write: StorageOutcome)
    requires Invariant(s) && (RenderContent(s).PreviewScreen? || RenderContent(s).ErrorScreen?)
    ensures Invariant(HandleAnalyzeClick(s, reply, id, now, write).state)
  {
  }

  /** The state after a sequence of events. */
  function Run(s: AppState, events: seq<Event>): AppState
    decreases |events|
  {
    if events == [] then s else Run(Step(s, events[0]).state, events[1..])
  }

  /** Each event of the sequence is offered in the state it meets. */
  predicate Offered(s: AppState, events: seq<Event>)
    decreases |events|
  {
    events == [] || (Enabled(s, events[0]) && Offered(Step(s, events[0]).state, events[1..]))
  }

  /** The invariant holds after any sequence of offered events. */
  lemma {:induction false} RunKeepsInvariant(s: AppState, events: seq<Event>)
    requires Invariant(s) && Offered(s, events)
    ensures Invariant(Run(s, events))
    decreases |events|
  {
    if events != [] {
      StepKeepsInvariant(s, events[0]);
      RunKeepsInvariant(Step(s, events[0]).state, events[1..]);
    }
  }

  /** In a state that keeps the invariant, the screens that act on a working
      file have one: crop, undo, analyze and retry are offered only with a
      file, and the error screen shows the extraction failure. */
  lemma PreviewHasWorkingFile(s: AppState)
    requires Invariant(s)
    ensures RenderContent(s).PreviewScreen? || RenderContent(s).CropperScreen? || RenderContent(s).ErrorScreen? ==>
              s.imageFile.Some? && s.originalImageFile.Some? && CanAnalyze(s)
    ensures RenderContent(s).ErrorScreen? ==> RenderContent(s).message == AnalyzeFailureMessage
  {
  }

  // ---------------------------------------------------------------------
  // Shared image URLs
  // ---------------------------------------------------------------------

  /** The capture added by a successful analysis holds the working URL
      itself, and "Scan Another" revokes that URL while the entry still
      shows it: the history keeps an image that is no longer valid. */
  lemma ResetRevokesImageOfNewestCapture(s: AppState, text: string, id: string, now: int, write: StorageOutcome)
    requires CanAnalyze(s)
    ensures var a := HandleAnalyzeClick(s, Extracted(text), id, now, write).state;
            var r := ResetState(a);
            && a.history[0].image == s.imageUrl.value
            && s.imageUrl.value in r.revoked
            && r.state.history == a.history
  {
  }

  /** Opening the newest capture right after analysing it revokes the URL
      the result screen then shows. */
  lemma OpenNewestRevokesShownUrl(s: AppState, text: string, id: string, now: int, write: StorageOutcome)
    requires CanAnalyze(s)
    ensures var a := HandleAnalyzeClick(s, Extracted(text), id, now, write).state;
            var t := HandleHistoryItemSelect(a, a.history[0]);
            && t.state.imageUrl == s.imageUrl
            && s.imageUrl.value in t.revoked
  {
  }
}
