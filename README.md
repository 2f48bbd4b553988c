# AI photo editor: edit-session controller and history list

A model, in Dafny, of the client-side logic of a browser photo editor: the
user picks an image, types an instruction, sends both to a remote image
editing service and sees (and may download) the edited image; recent
successful edits are kept in a short history list.

The model covers:

- **The history list** (`History`, from `hooks/useImageEditing.ts`):
  `addToHistory` puts the new entry in front, filters out every entry whose
  `id` already occurred earlier (the `findIndex` test), and cuts the list
  to `MAX_HISTORY_ITEMS = 12`. The filter is modelled as the source writes
  it, through a `FindIndex` over the whole list, and then proved to keep
  exactly the first occurrences, in order, with pairwise distinct ids.
- **Payload extraction** (`ImageEditing.FileToBase64`): `split(',')[1]` of
  the data URL, refused with "Could not read image data." when missing or
  empty. JavaScript's `split` is written out in `Text` with its inverse
  `Join`.
- **The edit session** (`ImageEditing`): the hook's seven state variables
  as a `SessionState` value, each handler as a transition function, and a
  class `Session` with the same seven fields whose methods update them step
  by step and promise that the new state is the transition of the old one.
  `handleSubmit` is split at its `await` into `BeginSubmit` (the guard, or
  the start of loading, capturing file, prompt and preview as the closure
  does) and `CompleteSubmit` (payload, service outcome, history update,
  `finally`), and also offered whole as `HandleSubmit`.
- **The page** (`App`, from `App.tsx`): when Generate and the prompt box
  are enabled, when the result counts as ready (download offered, enhance
  toggle shown), when the history panel appears, and the class `Screen`
  whose handlers reset `isSharpened` before calling the hook.
- **The image pane** (`ImageDisplay`, from `components/ImageDisplay.tsx`):
  the spinner / picture / placeholder choice, the download button's
  condition, how a download is prepared, the extension taken from the blob's
  MIME type, and the download file name.

Inputs that come from outside the code are parameters: the remote
service's outcome (`ServiceOutcome`: a result, or a thrown value), the text
of `new Date().toISOString()` (`isoTime`, from which the history id is
made), the value of `Date.now()` (`now`), the type of a fetched blob, and
the data URL a `FileReader` produces for a file (carried in `ImageFile`).

JavaScript truthiness is modelled exactly (`Types.Truthy`): an empty string
counts as absent. So history grows only when both the result's image URL and
the preview are non-empty strings, not merely non-null.

`split(',')[1]` is the piece between the first and the second comma, not
everything after the first comma; the model follows the code
(`FileToBase64ByCommas` states it). Base64 text holds no comma, so for a
real data URL the two readings agree (`FileToBase64OfDataUrl`).

Several places where the code behaves differently from what one might
expect; the model follows the code:

- A late response is not discarded. The code keeps no request identity, so a
  response that settles after a history entry was loaded still replaces the
  shown result (`ImageEditing.LateResultOverwritesLoadedEntry`).
- More than one request can be in flight. The only guard is the disabled
  Generate button; the history panel and the upload control are never
  disabled, and loading a history entry sets `isLoading` to false while a
  request is pending (`App.SecondRequestWhileFirstInFlight`).
- A successful edit with an image does not always lengthen the history by
  one. The code first removes entries with the same id and then cuts the list
  to twelve, so it grows by one only when the id is new and there is room
  (`ImageEditing.SubmitAddsExactlyOne`).
- Handing the hook no file does not reset the session. `handleImageChange`
  accepts `null` and then clears only the file and the preview, keeping the
  previous result and error (`ImageEditing.ImageChangeEffect`). The upload
  control itself never passes `null`: it calls the handler only when a file
  was chosen, so this path is reached only through the hook's own interface.

## Model

| member | source | states |
|---|---|---|
| `History.FindIndex` | hooks/useImageEditing.ts:49 | the position of the first entry with the given id, or -1 exactly when no entry has it |
| `History.KeepFirstFrom` | hooks/useImageEditing.ts:49 | the filter keeps an entry iff it is the first with its id; survivors have distinct ids and form a subsequence of the input |
| `History.KeepFirstInOrder` | hooks/useImageEditing.ts:49 | the survivors from a position on stand in the order of their ids' first occurrences |
| `History.RemoveDuplicates` | hooks/useImageEditing.ts:48-49 | distinct ids, a subsequence of the input, every survivor is the first occurrence of its id, and every id of the input is represented |
| `History.RemoveDuplicatesInOrder` | hooks/useImageEditing.ts:49 | the survivors of the whole filter stand in the order of their ids' first occurrences |
| `History.AddToHistory` | hooks/useImageEditing.ts:46-58 | at most 12 entries, the new item first, ids pairwise distinct, no older entry with the new id, every other entry taken from the old list, relative order kept |
| `History.AddPreservesInvariant` | hooks/useImageEditing.ts:48-50 | the bounded, duplicate-free invariant holds after every add, whatever the old list |
| `History.AddToDistinctHistory` | hooks/useImageEditing.ts:48-50 | on a duplicate-free list, adding is: new item in front, old entry with the same id removed, first 12 kept |
| `History.LaterAddComesFirst` | hooks/useImageEditing.ts:48-50 | two adds with different ids leave the later one first and the earlier one second (most recent first) |
| `History.ReAddReplaces` | hooks/useImageEditing.ts:48-50 | re-adding an id leaves one entry with that id, the newer one, at the front |
| `Text.Split` | hooks/useImageEditing.ts:14 | pieces contain no separator, there is at least one, and joining them with the separator gives the input back |
| `Text.SplitJoin` | hooks/useImageEditing.ts:14 | split undoes join on separator-free pieces (the two are inverses) |
| `Text.SplitAtFirst` | components/ImageDisplay.tsx:23 | the first piece is the text before the first separator, the rest is the split of what follows; no separator gives one piece |
| `Text.Segment` | hooks/useImageEditing.ts:14 | transcribes `s.split(sep)[k]`: the k-th piece, or nothing (`undefined`) when there are at most k pieces |
| `Text.Decimal` | components/ImageDisplay.tsx:24 | the timestamp is written as decimal digits without a leading zero |
| `Text.DecimalRoundTrip` | components/ImageDisplay.tsx:24 | reading the digits back gives the timestamp |
| `ImageEditing.FileToBase64` | hooks/useImageEditing.ts:14-19 | a success is a non-empty comma-free payload; every failure carries "Could not read image data." |
| `ImageEditing.FileToBase64ByCommas` | hooks/useImageEditing.ts:14-19 | the result equals the text between the first comma and the next comma (or end), refused when there is no comma or that text is empty |
| `ImageEditing.FileToBase64OfDataUrl` | hooks/useImageEditing.ts:12-16 | header, comma and a non-empty comma-free payload yield exactly the payload (round trip) |
| `ImageEditing.ErrorMessage` | hooks/useImageEditing.ts:101 | transcribes `err instanceof Error ? err.message : 'An unknown error occurred.'` |
| `ImageEditing.PromptSet` | hooks/useImageEditing.ts:28 | transcribes `setPrompt(text)`: only the prompt is replaced |
| `ImageEditing.ImageChanged` | hooks/useImageEditing.ts:60-74 | transcribes `handleImageChange`: with a file, set it, clear result and error, set the preview to its data URL; without one, clear file and preview |
| `ImageEditing.SubmitAdmitted` | hooks/useImageEditing.ts:77 | a file is chosen and the prompt is non-empty: the negation of the guard at line 77 |
| `ImageEditing.SubmitStarted` | hooks/useImageEditing.ts:77-84 | transcribes the synchronous part of `handleSubmit`: the validation error, or `isLoading` true with error and result cleared |
| `ImageEditing.Captured` | hooks/useImageEditing.ts:76-84 | the file, prompt and preview the `handleSubmit` closure goes on with once it passes the guard |
| `ImageEditing.RequestFor` | hooks/useImageEditing.ts:87-88 | transcribes `editImage(base64Data, originalImage.type, prompt)`, reached only when `fileToBase64` resolves |
| `ImageEditing.NewHistoryItem` | hooks/useImageEditing.ts:92-98 | transcribes the entry literal: id `toISOString() + prompt`, the captured preview and prompt, the result's image URL and text |
| `ImageEditing.SubmitCompleted` | hooks/useImageEditing.ts:86-106 | transcribes the `try`/`catch`/`finally` after the `await`: read error or service outcome, the history add under the truthiness test of line 91, `isLoading` false in every case |
| `ImageEditing.Submitted` | hooks/useImageEditing.ts:76-107 | `handleSubmit` run to completion: the started state, then the completion for the captured values |
| `ImageEditing.SubmitRequest` | hooks/useImageEditing.ts:76-88 | the request a whole `handleSubmit` sends, if it gets that far |
| `ImageEditing.HistoryLoaded` | hooks/useImageEditing.ts:109-117 | transcribes the six setter calls of `loadFromHistory` |
| `ImageEditing.HistoryCleared` | hooks/useImageEditing.ts:119-120 | transcribes `setHistory([])` |
| `ImageEditing.ImageChangeEffect` | hooks/useImageEditing.ts:60-74 | a file sets image and preview and clears result and error; none clears image and preview and keeps result and error; prompt, loading and history never change |
| `ImageEditing.SubmitGuard` | hooks/useImageEditing.ts:77-84 | a request starts iff image and non-empty prompt; otherwise only the validation error is set and no request is made; a started request sets loading and clears error and result |
| `ImageEditing.SubmitSucceeds` | hooks/useImageEditing.ts:86-106 | on success: result shown, loading off, no error, request carries payload, MIME type and prompt; history gains the new entry (edited image = result image) in front iff result image and preview are non-empty, else unchanged |
| `ImageEditing.SubmitAddsExactlyOne` | hooks/useImageEditing.ts:91-99 | with a fresh id and room in a duplicate-free list, success adds exactly one entry in front of the old list |
| `ImageEditing.SubmitFails` | hooks/useImageEditing.ts:100-106 | on rejection: error is "Failed to edit image. " followed by the message, no result, loading off, history unchanged |
| `ImageEditing.SubmitUnreadable` | hooks/useImageEditing.ts:86-106 | when no payload can be extracted, nothing is sent and the read error is reported behind the failure prefix |
| `ImageEditing.HistoryLoadEffect` | hooks/useImageEditing.ts:109-117 | loading an entry clears the image, sets preview, prompt and result from it, clears error and loading, keeps history |
| `ImageEditing.LoadThenSubmitRejected` | hooks/useImageEditing.ts:76-117 | after loading an entry, submit hits the guard: only the validation error, no request |
| `ImageEditing.ClearHistoryEffect` | hooks/useImageEditing.ts:119-126 | clearing empties the history and changes nothing else |
| `ImageEditing.LateResultOverwritesLoadedEntry` | hooks/useImageEditing.ts:86-117 | a response settling after an entry was loaded still replaces the shown result, with no image selected |
| `ImageEditing.TransitionsKeepHistoryInvariant` | hooks/useImageEditing.ts:46-126 | every handler keeps the history bounded and duplicate-free |
| `ImageEditing.Session.constructor` | hooks/useImageEditing.ts:26-32 | the initial values of the seven state variables |
| `ImageEditing.Session.SetPrompt` | hooks/useImageEditing.ts:28 | only the prompt changes |
| `ImageEditing.Session.HandleImageChange` | hooks/useImageEditing.ts:60-74 | the fields become the image-change transition of the old state |
| `ImageEditing.Session.BeginSubmit` | hooks/useImageEditing.ts:76-84 | the fields become the started (or refused) state; returns the captured file, prompt and preview iff started |
| `ImageEditing.Session.CompleteSubmit` | hooks/useImageEditing.ts:86-106 | the fields become the completed state for the given outcome; returns the request sent, if any |
| `ImageEditing.Session.HandleSubmit` | hooks/useImageEditing.ts:76-107 | begin and complete without interleaving, keeping the history invariant |
| `ImageEditing.Session.LoadFromHistory` | hooks/useImageEditing.ts:109-117 | the fields become the history-load transition of the old state |
| `ImageEditing.Session.ClearHistory` | hooks/useImageEditing.ts:119-126 | only the history changes, to empty |
| `ImageDisplay.Render` | components/ImageDisplay.tsx:78-104 | spinner iff loading; picture of the image URL iff not loading and an image URL; caption, equal to the overlay, iff the overlay is non-empty; otherwise the placeholder with the pane's label |
| `ImageDisplay.PlanDownload` | components/ImageDisplay.tsx:14-70 | no download iff no image URL; canvas re-encode iff enhanced; fetch otherwise; always from the shown URL |
| `ImageDisplay.DownloadButtonShown` | components/ImageDisplay.tsx:105 | transcribes `isDownloadable && imageUrl && !isLoading` |
| `ImageDisplay.BlobType` | components/ImageDisplay.tsx:47-68 | the type of the blob given to `triggerDownload`: `image/png` from the canvas export, the fetched blob's own type otherwise |
| `ImageDisplay.Extension` | components/ImageDisplay.tsx:23 | the extension never contains `/` or `+` |
| `ImageDisplay.ExtensionOfMimeType` | components/ImageDisplay.tsx:23 | `top/sub` with an optional `+suffix` gives `sub` |
| `ImageDisplay.ExtensionFallsBackToPng` | components/ImageDisplay.tsx:23 | a missing or empty subtype gives `png` |
| `ImageDisplay.ExtensionOfSvg` | components/ImageDisplay.tsx:23 | `image/svg+xml` gives `svg` |
| `ImageDisplay.ExtensionOfJpeg` | components/ImageDisplay.tsx:23 | `image/jpeg` gives `jpeg` |
| `ImageDisplay.ExtensionDefaultExamples` | components/ImageDisplay.tsx:23 | the empty type and `image` give `png` |
| `ImageDisplay.ExtensionEmptyForPlusSubtype` | components/ImageDisplay.tsx:23 | `image/+xml` gives the empty extension |
| `ImageDisplay.FileStem` | components/ImageDisplay.tsx:24 | the file name stem: `enhanced-edit-` or `edit-` by the enhance flag, then the clock value in decimal |
| `ImageDisplay.DownloadName` | components/ImageDisplay.tsx:23-25 | transcribes `${filename}.${extension}`: the stem, a dot and the extension of the blob's type |
| `ImageDisplay.DownloadNameMarksEnhanced` | components/ImageDisplay.tsx:24-25 | the name starts with `enhanced-` iff the enhanced look is on |
| `ImageDisplay.DownloadNameHasNoSlash` | components/ImageDisplay.tsx:23-25 | the download name contains no `/` |
| `ImageDisplay.EnhancedDownloadIsPng` | components/ImageDisplay.tsx:23-53 | an enhanced download is re-encoded and named `enhanced-edit-<now>.png` |
| `ImageDisplay.DownloadButtonOverPicture` | components/ImageDisplay.tsx:78-105 | the download button only appears over the picture, and then there is always something to download |
| `App.GenerateMatchesGuard` | App.tsx:56 | outside a request, Generate is enabled iff the submit guard admits; clicking it starts a request and disables Generate and the prompt box |
| `App.LoadingKeepsGenerateDisabled` | App.tsx:52-56 | while loading, Generate stays disabled whatever file or prompt is chosen, and no result is ready |
| `App.HistoryLoadDisablesGenerate` | App.tsx:52-56 | after loading an entry Generate and the prompt box are disabled; the result is ready iff the entry's image is non-empty |
| `App.SecondRequestWhileFirstInFlight` | App.tsx:56 | loading an entry and then choosing a file re-enables Generate while the first request is still loading |
| `App.EditedPaneDownload` | App.tsx:74-89 | the edited pane offers a download iff the result is ready (the condition that also shows the enhance toggle), and then shows the result image with the page's enhance flag; the original pane never offers one |
| `App.HistoryPanelVisibility` | App.tsx:94-100 | a successful edit with image and preview shows the history panel; clearing hides it |
| `App.GenerateEnabled` | App.tsx:56 | the negation of the button's `disabled` condition: a file, a non-empty prompt and no request loading |
| `App.PromptDisabled` | App.tsx:52 | the prompt box's `disabled` condition: no file, or a request loading |
| `App.EditedImageUrl` | App.tsx:77 | transcribes `editResult?.imageUrl` |
| `App.EditedText` | App.tsx:79 | transcribes `editResult?.text` |
| `App.ResultReady` | App.tsx:80-84 | transcribes `editResult?.imageUrl && !isLoading`, the condition for both the download button and the enhance toggle |
| `App.HistoryPanelShown` | App.tsx:94 | transcribes `history.length > 0` |
| `App.OriginalPane` | App.tsx:74 | the props of the left pane: label `Original`, the preview, every flag off |
| `App.EditedPane` | App.tsx:75-82 | the props of the right pane: label `Edited`, the result's image and text, loading, downloadable iff the result is ready, the page's enhance flag |
| `App.Screen.constructor` | App.tsx:29 | the page starts with the hook's initial state and the enhance flag off |
| `App.Screen.OnImageSelected` | App.tsx:31-34 | the enhance flag is off and the hook's state is the image-change transition |
| `App.Screen.OnGenerateClick` | App.tsx:36-39 | the enhance flag is off and the hook's state is the started (or refused) submission |
| `App.Screen.OnToggle` | App.tsx:84-89 | only the enhance flag changes, to the value given |
| `App.Screen.OnPromptChange` | App.tsx:52 | only the prompt changes |

## Left out

- The remote `editImage` call in `services/geminiService`: services/geminiService is not part of this model; its settled outcome is an input.
- Loading the history from `localStorage` at start-up, saving it after each add and removing it on clear, with their `try`/`catch`: browser storage, and every failure there is only logged. The model starts from an empty history.
- `FileReader` I/O: reading a file is assumed to give its data URL; a read error (`reader.onerror`) is not modelled.
- `ImageEditing.Session.HandleImageChange`: the preview arrives asynchronously in the source; the model sets it at once, so the window in which the old preview is still shown is not captured.
- The interleaving of a pending request with other events is modelled only as far as `BeginSubmit` / `CompleteSubmit` can be called in any order by a client; there is no scheduler, and no generation counter (the source has none).
- The canvas `contrast(1.25) saturate(1.1)` re-encoding, blob URLs and the temporary link added to and removed from the document: pixel work and DOM. Only the plan (re-encode as PNG or fetch) and the resulting file name are modelled; `canvas.toBlob` is assumed to return a PNG blob.
- `console.error`, `alert` and `window.scrollTo`: side effects with no bearing on the state.
- The markup-only components (ImageUpload, HistoryPanel, EnhanceToggle, PromptInput, Header) and the layout and styling of all views.
