# SnapCapture core, modelled in Dafny

SnapCapture is a single-page application. It takes a photo, optionally crops it, and sends it to a remote text-extraction service. It shows the text with the phone numbers found in it, and keeps the last ten captures in browser storage. This project models three parts of that application:

- **The capture history** (`History`, `history.dfy`). The list is newest first and holds at most ten captures. `addCapture` stamps the new capture with the current time and prepends it. When the list grows past ten, the oldest entry is dropped and its image is released if it is a `blob:` URL. `clearHistory` releases every `blob:` image and empties the list. Browser storage is an abstract snapshot: a missing key, a value that does not parse, or the list written last. A storage call that throws leaves the snapshot as it was.
- **Phone-number detection** (`PhoneDetection`, `phone_detection.dfy`). The text is searched globally for `/[+\d(][\d\s().-]{6,}/g`. Each match is trimmed and loses at most one trailing `.`, `,`, whitespace or `-`. Only cleaned matches with 7 to 15 digits are kept. Each kept number becomes a `tel:` link with its whitespace removed. The search is a left-to-right scan (`Scan`), proved equal to a declarative description of a global regular-expression search (`LeftmostGreedy`). A hand-written one-pass method (`FindPhoneNumbers`) is proved to return the same numbers.
- **The application shell** (`App`, `app.dfy`). It holds the view state: the working and original files, the object URL of the working image, the result, the error, and the loading and crop flags. It has the handlers that change that state and `renderContent`, which picks the screen. Every handler returns the new state together with the multiset of object URLs it revokes. Each screen offers a set of events. An invariant is proved to hold after any sequence of offered events.

A file is an opaque number compared by identity. A URL that `URL.createObjectURL` returns is a parameter of the handler that creates it. The same holds for:
- the reply of the remote extraction (the text, or a failure);
- the current time;
- the id `Date.now().toString()`;
- whether a storage call returned or threw.

A nullable string used as a condition follows JavaScript truthiness: an empty string counts as absent.

The model keeps one aliasing behaviour visible. After a successful analysis, the new history entry holds the working URL itself (App.tsx:72). "Scan Another" then revokes that URL (App.tsx:82-84), while the entry still shows it. Opening that entry right after analysing it likewise revokes the URL the result screen then displays (App.tsx:97-99). `App.ResetRevokesImageOfNewestCapture` and `App.OpenNewestRevokesShownUrl` state this.

## Model

| member | source | states |
|---|---|---|
| History.Push | hooks/useHistory.ts:24-32 | The new entry comes first. Below the cap, the old list follows it unchanged and nothing is released. At the cap, the oldest entry is dropped and its image is released only when it is a `blob:` URL. A list within the cap stays within it. |
| History.Persist | hooks/useHistory.ts:33-37 | A write that returns stores the new list. A write that throws leaves the stored snapshot unchanged. |
| History.Release | hooks/useHistory.ts:27-30 | A `blob:` URL is revoked once. Any other URL is left alone. |
| History.AddCapture | hooks/useHistory.ts:22-40 | The first entry carries the given id, image and text, stamped with the time of the call. The rest is the old list, minus its oldest entry when it was full. Only the dropped `blob:` image is revoked. Storage gets the new list when the write returns and is unchanged when it throws. |
| History.AddCaptureIgnoresWriteFailure | hooks/useHistory.ts:33-38 | A failed storage write changes neither the list nor what is revoked. |
| History.LoadHistory | hooks/useHistory.ts:11-20 | On start-up the stored list is used when it is present and parses. A missing key, an unparsable value or a read that throws gives an empty list. |
| History.LoadAfterAdd | hooks/useHistory.ts:13-34 | The list `addCapture` writes is exactly what the next load reads back. |
| History.ClearHistory | hooks/useHistory.ts:42-55 | The list becomes empty. Every `blob:` URL is revoked as many times as it is an entry's image, and no other URL is revoked. Storage is removed, or unchanged if removal throws. |
| History.BlobImagesCounts | hooks/useHistory.ts:44-48 | The URLs released by clearing are exactly the `blob:` images of the list, counted with multiplicity. |
| History.BlobImages | hooks/useHistory.ts:44-48 | The URLs released for a list are `blob:` URLs, at most one per entry. |
| History.LoadAfterClear | hooks/useHistory.ts:49-51 | After a successful clear, a later load yields an empty list. |
| History.PushKeepsNewestFirst | hooks/useHistory.ts:24 | An entry stamped no earlier than the others keeps the list ordered newest first. |
| History.PushOntoWindow | hooks/useHistory.ts:24-32 | Adding to the ten newest captures gives the ten newest of the longer list. The one image that falls out is the one released. |
| History.PushAllKeepsNewestTen | hooks/useHistory.ts:22-32 | After any number of additions to a list within the cap, the list is the ten most recent captures, newest first. The released URLs are exactly the `blob:` images of every capture pushed out. |
| PhoneDetection.BodyRun | App.tsx:235 | The greedy run of `[\d\s().-]` from a position stays in the text and holds only body characters. It ends at the end of the text or before a non-body character. |
| PhoneDetection.IsSpace | App.tsx:235-240 | The characters `\s` and `trim()` treat as whitespace: the ECMAScript white space and line terminators, including no-break space, the Unicode space separators and the byte order mark. |
| PhoneDetection.Scan | App.tsx:236 | The global search from a position returns spans that lie within the text, each non-empty and at or after the position; `ScanIsTheGlobalSearch` ties it to the description of `text.match`. |
| PhoneDetection.MatchEnd | App.tsx:235 | A match begins at a position exactly when a start character there is followed by at least six body characters. It then ends where the greedy run ends. |
| PhoneDetection.ScanMeetsDescription | App.tsx:235-236 | The spans the scan returns meet the description of a global search: no match begins before each span, each span is a greedy match, and the search resumes at its end. |
| PhoneDetection.ScanFindsGreedyMatches | App.tsx:235 | Every span returned is a match of the pattern that the greedy quantifier cannot extend. |
| PhoneDetection.LeftmostGreedyUnique | App.tsx:236 | Only one list of spans meets the description of a global search. |
| PhoneDetection.ScanIsTheGlobalSearch | App.tsx:235-236 | A list of spans meets the description of `text.match(regex)` exactly when it is the scan's result. |
| PhoneDetection.LeftmostGreedyInTextOrder | App.tsx:236 | The matches of a global search are in text order and never overlap. |
| PhoneDetection.TrimEndFacts | App.tsx:240 | Trimming the end keeps a prefix and removes only whitespace. The kept part is empty or ends in a non-space. |
| PhoneDetection.TrimEnd | App.tsx:240 | Trimming the end never lengthens a match; `TrimEndFacts` states what it keeps. |
| PhoneDetection.Trim | App.tsx:240 | `trim()` never lengthens a match; `TrimFacts` states what it keeps. |
| PhoneDetection.TrimFacts | App.tsx:240 | `trim()` of all-whitespace text is empty. Text starting with a non-space keeps a non-empty prefix, ending in a non-space, followed by whitespace only. |
| PhoneDetection.CleanMatch | App.tsx:240 | Cleaning a match keeps a non-empty prefix with the same first character. It removes only trailing whitespace and at most one `.`, `,`, whitespace or `-`. |
| PhoneDetection.Clean | App.tsx:240 | The clean-up of a match never lengthens it; `CleanMatch` and `CleanKeepsDigits` state what it keeps. |
| PhoneDetection.DigitCount | App.tsx:242 | The number of digits of a string is at most its length. It adds up over concatenation (`DigitCountAppend`) and is zero for a string without digits (`NoDigitsCountZero`). |
| PhoneDetection.CleanKeepsDigits | App.tsx:240-243 | Cleaning a match removes no digit, so the filter counts the same digits the raw match has. |
| PhoneDetection.MatchTexts | App.tsx:236 | The array of matches holds, in order, the text each span covers. |
| PhoneDetection.CleanAllAt | App.tsx:240 | Element `k` of the mapped array is the cleaned match `k`. |
| PhoneDetection.KeepPhoneLength | App.tsx:241-244 | The filter keeps only strings with 7 to 15 digits and never lengthens the list. |
| PhoneDetection.KeepPhoneLengthMembers | App.tsx:241-244 | A string survives the filter exactly when it is in the list and has 7 to 15 digits. |
| PhoneDetection.KeepPhoneLengthAppend | App.tsx:239-244 | Filtering distributes over concatenation, so the order of matches is kept. |
| PhoneDetection.PhonesOfAppend | App.tsx:239-244 | Map-then-filter over two runs of matches is the concatenation of the results for each run. |
| PhoneDetection.DetectedNumbers | App.tsx:233-245 | Every detected number has 7 to 15 digits. There are no more numbers than matches. |
| PhoneDetection.DetectedNumberSource | App.tsx:239-244 | Every detected number is the cleaned text of one of the search's matches, and that match holds 7 to 15 digits. |
| PhoneDetection.MatchIsDetected | App.tsx:239-244 | Every match holding 7 to 15 digits contributes its cleaned text to the detected numbers. |
| PhoneDetection.DetectedNumbersAreFilteredMatches | App.tsx:233-245 | A string is detected exactly when it is the cleaned text of a match of the global search holding 7 to 15 digits. |
| PhoneDetection.EndOfBodyRun | App.tsx:235 | Walking the body characters from a position stops where the greedy run ends. |
| PhoneDetection.StepAt | App.tsx:235-244 | One step of the one-pass search advances. It yields what the global search yields between the old position and the new one. |
| PhoneDetection.FindPhoneNumbers | App.tsx:233-245 | The one-pass search returns exactly the detected numbers, in order. |
| PhoneDetection.StripSpaces | App.tsx:373 | Removing whitespace leaves no whitespace. |
| PhoneDetection.StripSpacesKeepsOthers | App.tsx:373 | Removing whitespace keeps every other character as often as it occurred. |
| PhoneDetection.StripSpacesAppend | App.tsx:373 | Removing whitespace from two texts joined is joining the two texts with whitespace removed. |
| PhoneDetection.StripSpacesKeepsOrder | App.tsx:373 | Removing whitespace splits at any point of the text, and every non-space character stays between what is left before it and what is left after it. |
| PhoneDetection.TelHref | App.tsx:373 | The link starts with `tel:`. After that it has no whitespace and holds the number's other characters with their multiplicities and in their order: every non-space character sits between the stripped text before it and the stripped text after it, and a number without whitespace is dialled as displayed. |
| App.WorkingUrl | App.tsx:82-84 | The guarded `URL.revokeObjectURL(imageUrl)` of the reset, crop and revert handlers. It revokes the working URL exactly when it is present and non-empty, and revokes nothing otherwise. |
| App.RevertOffered | App.tsx:132 | The undo button is offered when the working file is not the original one and an original exists. |
| App.CanAnalyze | App.tsx:61 | The guard of the analyse button: a working file and a non-empty URL. |
| App.RenderContent | App.tsx:105-138 | The screen shown gets its content from the state: the history list, the error message, the result text and image, or the image being cropped or previewed. Undo is offered exactly when the working file differs from an existing original. |
| App.RenderedIsFirstWanted | App.tsx:105-137 | The condition of the screen shown holds, and the condition of no earlier screen does. |
| App.RenderPriority | App.tsx:105-137 | The screen of rank `k` is shown exactly when its condition holds and no earlier one's does. The order is history, loading, error, result, cropper, preview, prompt. |
| App.ResetState | App.tsx:81-95 | The working URL is revoked when present. Every working slot, the result, the error and both flags are cleared. The tab, the history and storage stay. The capture tab then shows the prompt. |
| App.HandleFileChange | App.tsx:25-34 | With no file nothing changes. Otherwise the state is reset and the file becomes both the working and the original file under the new URL. The preview is shown with no undo. |
| App.StartCrop | App.tsx:131 | The crop button turns on crop mode and changes nothing else, so the preview becomes the cropper for the same image. |
| App.HandleCropConfirm | App.tsx:36-46 | The old URL is revoked. The cropped file and its URL become the working image and crop mode ends. Every other field is kept: the original, the result, the error, the loading flag, the tab, the history and storage. Undo is offered whenever the cropped file differs from an existing original. |
| App.HandleCropCancel | App.tsx:48-50 | Crop mode ends and nothing else changes. |
| App.CancelUndoesStartCrop | App.tsx:48-50 | Cancelling a crop returns exactly to the state before it began. |
| App.HandleRevert | App.tsx:52-58 | Without an original nothing changes. Otherwise the old URL is revoked and the original becomes the working file under a new URL, after which undo is no longer offered. Every other field is kept, the history, tab, error, result and storage among them. |
| App.RevertUndoesCrop | App.tsx:52-58 | Undo after a crop brings back the file first chosen. |
| App.BeginAnalyze | App.tsx:60-65 | The click turns loading on and clears the error and the result, so the capture tab shows the spinner. Every other field is kept: the working and original files, the URL, the tab and the history. |
| App.FinishAnalyze | App.tsx:67-78 | On success the text is shown and the capture of the clicked URL is added to the history through `addCapture`, with its revocation and storage write; nothing else changes. On failure the fixed message is set and only the error and the loading flag change, so the history and storage are untouched. Loading ends either way. |
| App.HandleAnalyzeClick | App.tsx:60-79 | Without a working file and URL nothing happens. On success the newest history entry is the current URL with the text and time, the URL revoked is the one the cap pushes out, storage holds the new list when the write returns, and the result screen shows both. On failure the error screen shows "Failed to analyze image. Please try again." with history and storage kept. Either way only the result, error, loading flag, history and storage can change. |
| App.RetryRepeatsRequest | App.tsx:114-116 | After a failure, "Try Again" can run and sends the same file and URL that failed. |
| App.HandleHistoryItemSelect | App.tsx:97-103 | The state is reset: the working URL is revoked, and the error, loading and crop flags are cleared. The entry's image and text are then shown on the capture tab with no working file, so the result screen appears whenever the image is non-empty. The history and storage are kept. |
| App.HistoryResultIsNotReanalyzed | App.tsx:97-103 | A result opened from the history cannot start an analysis. |
| App.HandleClearHistory | hooks/useHistory.ts:42-55 | "Clear All" empties the history and revokes its `blob:` images. Storage is removed when `removeItem` returns and unchanged when it throws. Nothing else in the view state changes. |
| App.SetView | App.tsx:425 | The bottom navigation changes the tab and nothing else. |
| App.EditText | App.tsx:119 | Editing the result replaces the text and keeps the result screen on the same image. |
| App.Initial | App.tsx:14-23 | The state after mounting is on the capture tab with every slot empty: no working or original file, no URL, no result, no error, and neither loading nor cropping. It therefore shows the prompt with nothing to analyse and no undo. The history is the stored list when it is read and present, and empty when the read throws or nothing is stored. |
| App.Enabled | App.tsx:105-137 | The events the shown screen offers. The history screen's events are offered only on the history tab. Every other event except the tabs is offered only on the capture tab and never while loading. |
| App.Step | App.tsx:105-137 | Each event runs its handler. Only an analysis and "Clear All" change the history or storage. The tab changes only through the bottom navigation or when a history entry is opened. |
| App.StepRevokesOnlyKnownUrls | App.tsx:25-103 | Every URL an event revokes is the working URL or an image held in the history. |
| App.AnalyzeRevokesOnlyOldestImage | App.tsx:67-78 | An analysis revokes at most the image of the oldest capture, and only when the history is full. |
| App.InitialInvariant | App.tsx:14-23 | The state after mounting keeps the invariant when the stored list is within the cap. |
| App.StepKeepsInvariant | App.tsx:105-137 | Every event a screen offers keeps the invariant. The working and original slots are filled together. An image without a working file has a result. Crop mode has a working file. An error is the extraction failure, kept with the image that failed. The history stays within ten. |
| App.AnalyzeKeepsInvariant | App.tsx:60-79 | Analysing from the preview or retrying from the error screen keeps the invariant. |
| App.RunKeepsInvariant | App.tsx:105-137 | The invariant holds after any sequence of offered events. |
| App.PreviewHasWorkingFile | App.tsx:122-133 | In a state keeping the invariant, the preview, cropper and error screens have a working file to analyse, and the error shown is the extraction failure. |
| App.ResetRevokesImageOfNewestCapture | App.tsx:72-84 | After a successful analysis the newest history entry holds the working URL. "Scan Another" revokes that URL and leaves the entry in place. |
| App.OpenNewestRevokesShownUrl | App.tsx:97-99 | Opening the newest entry right after analysing it revokes the very URL the result screen then shows. |

## Left out

- The remote extraction (services/geminiService.ts), reading the file as base64 and its MIME type: modelled only as a reply that is either the text or a failure.
- The service worker (service-worker.js): caching is not part of the application state.
- The cropping component (components/ImageCropper.tsx): it is reduced to the cropped file it hands back, a parameter of `HandleCropConfirm`.
- The history list's presentation (components/HistoryView.tsx): only which events it offers is kept, namely one per entry, plus "Clear All" when there are entries.
- PDF export (App.tsx:260-335), copy to clipboard and sharing (App.tsx:247-258): these are output only and change no state. The floating-point layout of the PDF is outside the model.
- The clock, `URL.createObjectURL` and the new cropped `File`: each becomes a parameter. The model does not assume that a new file or URL differs from the ones already in the state, so the contracts that depend on it, such as undo being offered after a crop, say so in their hypothesis. `Date.now().toString()` as the id is a string parameter, and the model does not tie it to the time stamp.
- Interleaving while an analysis is pending: `HandleAnalyzeClick` runs the request to completion with no event in between, and a reply arriving after a reset or a newer file is not modelled. For that reason the invariant can state that nothing is left loading.
- The file input's value reset (App.tsx:93-94): this is DOM state outside the view state.
- The shape of the parsed JSON: a stored value that parses is taken to be a list of captures. A value such as `null`, which the source would install as the history, is not modelled.
- History.LoadHistory: a stored list longer than ten is loaded as it is, as the source does. The cap lemmas therefore require a list within the cap.
- App.ResetState: it revokes the working URL only. The source keeps no URL for the original file, so no separate original URL is ever released.
- PhoneDetection.Clean: it removes one trailing character after trimming, exactly as the source does. A result such as `"555 1234 -"` therefore keeps the space before the removed `-`.
- Strings are sequences of Unicode scalar values, not UTF-16 code units. None of the characters the pattern or `trim()` treats specially lies outside the Basic Multilingual Plane, so the difference does not affect the results.
