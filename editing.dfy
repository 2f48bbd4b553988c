/** The edit-session controller of hooks/useImageEditing.ts.

    The hook's state is the seven React state variables; the handlers
    change them. The transitions are first written as functions over a
    snapshot of that state (`SessionState`), which the lemmas below reason
    about; the class `Session` then holds the state in fields and updates
    them step by step the way the handlers call their setters, each method
    promising that the new snapshot is the matching transition of the old.

    The remote `editImage` call is not modelled: its outcome is an input
    (`ServiceOutcome`). The clock reading that makes a history id is an
    input too (`isoTime`, the text of `new Date().toISOString()`). */
module ImageEditing {
  import opened Types
  import opened Text
  import opened History

  const READ_ERROR: string := "Could not read image data."
  const VALIDATION_ERROR: string := "Please upload an image and provide a prompt."
  const FAILURE_PREFIX: string := "Failed to edit image. "
  const UNKNOWN_ERROR: string := "An unknown error occurred."

  // ---------------------------------------------------------------------
  // Payload extraction (`fileToBase64`)
  // ---------------------------------------------------------------------

  /** `fileToBase64` once the file has been read as a data URL: the text
      `split(',')[1]` yields, rejected with READ_ERROR when it is missing
      or empty. */
  function FileToBase64(dataUrl: string): (r: Result<string>)
    ensures r.Ok? ==> r.value != "" && ',' !in r.value
    ensures r.Err? ==> r.message == READ_ERROR
  {
    match Segment(dataUrl, ',', 1)
    case Some(p) => if p != "" then Ok(p) else Err(READ_ERROR)
    case None => Err(READ_ERROR)
  }

  /** An independent account of the same extraction, by searching for
      commas: the payload is what lies between the first comma and the
      next comma (or the end), and it is refused when there is no comma or
      nothing lies there. */
  lemma FileToBase64ByCommas(dataUrl: string)
    ensures var i := IndexOf(dataUrl, ',');
      FileToBase64(dataUrl) ==
        if i < 0 then Err(READ_ERROR)
        else
          var rest := dataUrl[i + 1..];
          var j := IndexOf(rest, ',');
          var p := if j < 0 then rest else rest[..j];
          if p == "" then Err(READ_ERROR) else Ok(p)
  {
    var i := IndexOf(dataUrl, ',');
    SplitAtFirst(dataUrl, ',');
    if i >= 0 {
      SplitAtFirst(dataUrl[i + 1..], ',');
    }
  }

  /** Round trip: a data URL made of a comma-free header, a comma and a
      non-empty comma-free base64 body yields exactly that body. */
  lemma FileToBase64OfDataUrl(header: string, payload: string)
    requires ',' !in header && ',' !in payload && payload != ""
    ensures FileToBase64(header + [','] + payload) == Ok(payload)
  {
    var parts := [header, payload];
    assert Join(parts, ',') == header + [','] + payload;
    SplitJoin(parts, ',');
  }

  // ---------------------------------------------------------------------
  // Session state and its transitions
  // ---------------------------------------------------------------------

  /** A chosen file: its MIME type (`file.type`) and the data URL that
      reading it with `readAsDataURL` produces. */
  datatype ImageFile = ImageFile(mimeType: string, dataUrl: string)

  /** The hook's seven state variables. */
  datatype SessionState = SessionState(
    originalImage: Option<ImageFile>,
    originalImagePreview: Option<string>,
    prompt: string,
    editResult: Option<EditResult>,
    isLoading: bool,
    error: Option<string>,
    history: seq<HistoryItem>)

  /** The state the hook starts in (before any stored history is loaded). */
  const InitialState: SessionState := SessionState(None, None, "", None, false, None, [])

  /** What a rejected promise carries: an `Error` with a message, or any
      other thrown value. */
  datatype Thrown = ErrorInstance(message: string) | OtherThrown

  /** The settled outcome of the remote `editImage` call. */
  datatype ServiceOutcome = Success(result: EditResult) | Failure(reason: Thrown)

  /** The request `editImage(base64Data, originalImage.type, prompt)` sends. */
  datatype EditRequest = EditRequest(imageBase64: string, mimeType: string, prompt: string)

  /** What an in-flight `handleSubmit` captured from the render it was
      created in: the file, the prompt and the preview. */
  datatype Pending = Pending(image: ImageFile, prompt: string, preview: Option<string>)

  /** `err instanceof Error ? err.message : 'An unknown error occurred.'` */
  function ErrorMessage(t: Thrown): string {
    match t
    case ErrorInstance(m) => m
    case OtherThrown => UNKNOWN_ERROR
  }

  /** `setPrompt(text)`. */
  function PromptSet(s: SessionState, text: string): SessionState {
    s.(prompt := text)
  }

  /** `handleImageChange(file)`; the preview the file reader delivers is
      taken to arrive at once. */
  function ImageChanged(s: SessionState, file: Option<ImageFile>): SessionState {
    match file
    case Some(f) =>
      s.(originalImage := Some(f), editResult := None, error := None, originalImagePreview := Some(f.dataUrl))
    case None =>
      s.(originalImage := None, originalImagePreview := None)
  }

  /** The guard of `handleSubmit`: a file is chosen and the prompt is not
      empty. */
  predicate SubmitAdmitted(s: SessionState) {
    s.originalImage.Some? && s.prompt != ""
  }

  /** The synchronous part of `handleSubmit`: the validation error, or the
      start of a request (loading, error and result cleared). */
  function SubmitStarted(s: SessionState): SessionState {
    if !SubmitAdmitted(s) then s.(error := Some(VALIDATION_ERROR))
    else s.(isLoading := true, error := None, editResult := None)
  }

  /** The values the started request goes on with, if one was started. */
  function Captured(s: SessionState): Option<Pending> {
    if SubmitAdmitted(s) then Some(Pending(s.originalImage.value, s.prompt, s.originalImagePreview))
    else None
  }

  /** The service request a pending submission makes: none when the
      payload cannot be extracted. */
  function RequestFor(p: Pending): Option<EditRequest> {
    match FileToBase64(p.image.dataUrl)
    case Ok(b64) => Some(EditRequest(b64, p.image.mimeType, p.prompt))
    case Err(_) => None
  }

  /** The history entry a successful edit records. */
  function NewHistoryItem(p: Pending, r: EditResult, isoTime: string): HistoryItem
    requires r.imageUrl.Some? && p.preview.Some?
  {
    HistoryItem(isoTime + p.prompt, p.preview.value, p.prompt, r.imageUrl.value, r.text)
  }

  /** The asynchronous rest of `handleSubmit`, applied to the state at the
      time it settles: payload extraction, the service outcome, the
      history update on success, and `isLoading` reset in `finally`. */
  function SubmitCompleted(s: SessionState, p: Pending, outcome: ServiceOutcome, isoTime: string): SessionState {
    match FileToBase64(p.image.dataUrl)
    case Err(m) => s.(error := Some(FAILURE_PREFIX + m), isLoading := false)
    case Ok(_) =>
      match outcome
      case Success(r) =>
        var h := if Truthy(r.imageUrl) && Truthy(p.preview)
                 then AddToHistory(NewHistoryItem(p, r, isoTime), s.history)
                 else s.history;
        s.(editResult := Some(r), history := h, isLoading := false)
      case Failure(t) =>
        s.(error := Some(FAILURE_PREFIX + ErrorMessage(t)), isLoading := false)
  }

  /** `handleSubmit` run to completion with nothing happening in between. */
  function Submitted(s: SessionState, outcome: ServiceOutcome, isoTime: string): SessionState {
    match Captured(s)
    case None => SubmitStarted(s)
    case Some(p) => SubmitCompleted(SubmitStarted(s), p, outcome, isoTime)
  }

  /** The service request a whole `handleSubmit` makes, if any. */
  function SubmitRequest(s: SessionState): Option<EditRequest> {
    match Captured(s)
    case None => None
    case Some(p) => RequestFor(p)
  }

  /** `loadFromHistory(item)`. */
  function HistoryLoaded(s: SessionState, item: HistoryItem): SessionState {
    s.(originalImage := None,
       originalImagePreview := Some(item.originalImagePreview),
       prompt := item.prompt,
       editResult := Some(EditResult(Some(item.editedImageUrl), item.editedImageText)),
       error := None,
       isLoading := false)
  }

  /** `clearHistory()`. */
  function HistoryCleared(s: SessionState): SessionState {
    s.(history := [])
  }

  // ---------------------------------------------------------------------
  // Properties of the transitions
  // ---------------------------------------------------------------------

  /** Choosing a file shows it and clears the previous result and error;
      choosing none clears the file and preview and leaves result and
      error as they were. Prompt, loading flag and history never change. */
  lemma ImageChangeEffect(s: SessionState, file: Option<ImageFile>)
    ensures var t := ImageChanged(s, file);
      && t.originalImage == file
      && t.prompt == s.prompt && t.isLoading == s.isLoading && t.history == s.history
      && (file.Some? ==> t.editResult == None && t.error == None && t.originalImagePreview == Some(file.value.dataUrl))
      && (file.None? ==> t.originalImagePreview == None && t.editResult == s.editResult && t.error == s.error)
  {
  }

  /** A submission starts exactly when the guard admits it; otherwise only
      the validation error is set and nothing is sent. */
  lemma SubmitGuard(s: SessionState, outcome: ServiceOutcome, isoTime: string)
    ensures Captured(s).Some? <==> SubmitAdmitted(s)
    ensures !SubmitAdmitted(s) ==>
      && Submitted(s, outcome, isoTime) == s.(error := Some(VALIDATION_ERROR))
      && SubmitRequest(s) == None
    ensures SubmitAdmitted(s) ==>
      var t := SubmitStarted(s);
      t == s.(isLoading := true, error := None, editResult := None)
  {
  }

  /** A submission the service answers: the result is shown, loading ends,
      no error is set, the request carries the payload, MIME type and
      prompt, and history gains the new entry in front exactly when the
      result has an image and there is a preview; otherwise history stays.
      The new entry's edited image is the result's image. */
  lemma SubmitSucceeds(s: SessionState, r: EditResult, isoTime: string)
    requires SubmitAdmitted(s)
    requires FileToBase64(s.originalImage.value.dataUrl).Ok?
    ensures var t := Submitted(s, Success(r), isoTime);
      && t.editResult == Some(r) && !t.isLoading && t.error == None
      && t.originalImage == s.originalImage && t.originalImagePreview == s.originalImagePreview
      && t.prompt == s.prompt
      && SubmitRequest(s) == Some(EditRequest(FileToBase64(s.originalImage.value.dataUrl).value,
                                              s.originalImage.value.mimeType, s.prompt))
      && (Truthy(r.imageUrl) && Truthy(s.originalImagePreview) ==>
            && t.history[0].editedImageUrl == r.imageUrl.value
            && t.history[0] == HistoryItem(isoTime + s.prompt, s.originalImagePreview.value, s.prompt,
                                           r.imageUrl.value, r.text)
            && t.history == AddToHistory(t.history[0], s.history))
      && (!(Truthy(r.imageUrl) && Truthy(s.originalImagePreview)) ==> t.history == s.history)
  {
  }

  /** On a duplicate-free history below capacity that has no entry with
      the new id, a successful edit with an image grows the history by
      exactly one entry, in front of the old ones. */
  lemma SubmitAddsExactlyOne(s: SessionState, r: EditResult, isoTime: string)
    requires SubmitAdmitted(s)
    requires FileToBase64(s.originalImage.value.dataUrl).Ok?
    requires Truthy(r.imageUrl) && Truthy(s.originalImagePreview)
    requires DistinctIds(s.history) && |s.history| < MAX_HISTORY_ITEMS
    requires forall k :: 0 <= k < |s.history| ==> s.history[k].id != isoTime + s.prompt
    ensures var t := Submitted(s, Success(r), isoTime);
      && |t.history| == |s.history| + 1
      && t.history[0].editedImageUrl == r.imageUrl.value
      && t.history[1..] == s.history
  {
    var item := HistoryItem(isoTime + s.prompt, s.originalImagePreview.value, s.prompt, r.imageUrl.value, r.text);
    AddToDistinctHistory(item, s.history);
    WithoutAbsentId(s.history, item.id);
    var w := [item] + s.history;
    assert w[..|w|] == w;
  }

  /** A submission the service rejects: the error is the fixed prefix
      followed by the reason's message, no result is shown, loading ends,
      and history stays as it was. */
  lemma SubmitFails(s: SessionState, reason: Thrown, isoTime: string)
    requires SubmitAdmitted(s)
    requires FileToBase64(s.originalImage.value.dataUrl).Ok?
    ensures var t := Submitted(s, Failure(reason), isoTime);
      && t.error == Some(FAILURE_PREFIX + ErrorMessage(reason))
      && t.error.value[|FAILURE_PREFIX|..] == ErrorMessage(reason)
      && t.editResult == None && !t.isLoading && t.history == s.history
      && SubmitRequest(s).Some?
  {
    var t := Submitted(s, Failure(reason), isoTime);
    assert t.error.value == FAILURE_PREFIX + ErrorMessage(reason);
  }

  /** A file whose data URL carries no payload: nothing is sent, the read
      error is reported behind the failure prefix, and result and history
      are as a rejected call leaves them. */
  lemma SubmitUnreadable(s: SessionState, outcome: ServiceOutcome, isoTime: string)
    requires SubmitAdmitted(s)
    requires FileToBase64(s.originalImage.value.dataUrl).Err?
    ensures var t := Submitted(s, outcome, isoTime);
      && SubmitRequest(s) == None
      && t.error == Some(FAILURE_PREFIX + READ_ERROR)
      && t.editResult == None && !t.isLoading && t.history == s.history
  {
  }

  /** Loading an entry shows its preview, prompt and result, clears file,
      error and loading; the history itself is untouched. */
  lemma HistoryLoadEffect(s: SessionState, item: HistoryItem)
    ensures var t := HistoryLoaded(s, item);
      && t.originalImage == None
      && t.originalImagePreview == Some(item.originalImagePreview)
      && t.prompt == item.prompt
      && t.editResult == Some(EditResult(Some(item.editedImageUrl), item.editedImageText))
      && t.error == None && !t.isLoading && t.history == s.history
  {
  }

  /** After loading an entry, submitting is refused by the guard without
      contacting the service, since no file is chosen any more. */
  lemma LoadThenSubmitRejected(s: SessionState, item: HistoryItem, outcome: ServiceOutcome, isoTime: string)
    ensures var t := HistoryLoaded(s, item);
      && !SubmitAdmitted(t)
      && SubmitRequest(t) == None
      && Submitted(t, outcome, isoTime) == t.(error := Some(VALIDATION_ERROR))
  {
  }

  /** Clearing the history empties it and changes nothing else. */
  lemma ClearHistoryEffect(s: SessionState)
    ensures HistoryCleared(s) == s.(history := [])
    ensures HistoryCleared(s).history == []
  {
  }

  /** A response that settles after the session has moved on still
      overwrites it: the hook keeps no record of which request is current,
      so a result loaded from history in the meantime is replaced by the
      late one, for an image that is no longer selected. */
  lemma LateResultOverwritesLoadedEntry(s: SessionState, item: HistoryItem, r: EditResult, isoTime: string)
    requires SubmitAdmitted(s)
    requires FileToBase64(s.originalImage.value.dataUrl).Ok?
    ensures var later := HistoryLoaded(SubmitStarted(s), item);
      var t := SubmitCompleted(later, Captured(s).value, Success(r), isoTime);
      && t.editResult == Some(r)
      && t.originalImage == None
      && t.prompt == item.prompt
  {
  }

  /** Every transition keeps the history bounded and duplicate-free. */
  lemma TransitionsKeepHistoryInvariant(s: SessionState, file: Option<ImageFile>, text: string,
                                        p: Pending, outcome: ServiceOutcome, isoTime: string, item: HistoryItem)
    requires HistoryInvariant(s.history)
    ensures HistoryInvariant(ImageChanged(s, file).history)
    ensures HistoryInvariant(PromptSet(s, text).history)
    ensures HistoryInvariant(SubmitStarted(s).history)
    ensures HistoryInvariant(SubmitCompleted(s, p, outcome, isoTime).history)
    ensures HistoryInvariant(Submitted(s, outcome, isoTime).history)
    ensures HistoryInvariant(HistoryLoaded(s, item).history)
    ensures HistoryInvariant(HistoryCleared(s).history)
  {
  }

  // ---------------------------------------------------------------------
  // The hook as an object whose handlers update its fields
  // ---------------------------------------------------------------------

  class Session {
    var originalImage: Option<ImageFile>
    var originalImagePreview: Option<string>
    var prompt: string
    var editResult: Option<EditResult>
    var isLoading: bool
    var error: Option<string>
    var history: seq<HistoryItem>

    /** The current values of the state variables. */
    function State(): SessionState
      reads this
    {
      SessionState(originalImage, originalImagePreview, prompt, editResult, isLoading, error, history)
    }

    /** The object invariant: the history list is bounded and free of
        duplicate ids. */
    ghost predicate Valid()
      reads this
    {
      HistoryInvariant(history)
    }

    constructor ()
      ensures Valid() && State() == InitialState
    {
      originalImage := None;
      originalImagePreview := None;
      prompt := "";
      editResult := None;
      isLoading := false;
      error := None;
      history := [];
    }

    method SetPrompt(text: string)
      requires Valid()
      modifies this
      ensures Valid() && State() == PromptSet(old(State()), text)
    {
      prompt := text;
    }

    method HandleImageChange(file: Option<ImageFile>)
      requires Valid()
      modifies this
      ensures Valid() && State() == ImageChanged(old(State()), file)
    {
      if file.Some? {
        originalImage := file;
        editResult := None;
        error := None;
        originalImagePreview := Some(file.value.dataUrl);
      } else {
        originalImage := None;
        originalImagePreview := None;
      }
    }

    /** The part of `handleSubmit` that runs before its first `await`;
        returns what the request goes on with, if it was started. */
    method BeginSubmit() returns (pending: Option<Pending>)
      requires Valid()
      modifies this
      ensures Valid() && State() == SubmitStarted(old(State()))
      ensures pending == Captured(old(State()))
    {
      if originalImage.None? || prompt == "" {
        error := Some(VALIDATION_ERROR);
        pending := None;
        return;
      }
      pending := Some(Pending(originalImage.value, prompt, originalImagePreview));
      isLoading := true;
      error := None;
      editResult := None;
    }

    /** The part of `handleSubmit` after its `await`s, applied to whatever
        the state is when the request settles; returns the request that
        was sent to the service, if any. */
    method CompleteSubmit(p: Pending, outcome: ServiceOutcome, isoTime: string) returns (request: Option<EditRequest>)
      requires Valid()
      modifies this
      ensures Valid() && State() == SubmitCompleted(old(State()), p, outcome, isoTime)
      ensures request == RequestFor(p)
    {
      var payload := FileToBase64(p.image.dataUrl);
      if payload.Err? {
        request := None;
        error := Some(FAILURE_PREFIX + payload.message);
      } else {
        request := Some(EditRequest(payload.value, p.image.mimeType, p.prompt));
        match outcome {
          case Success(r) =>
            editResult := Some(r);
            if Truthy(r.imageUrl) && Truthy(p.preview) {
              history := AddToHistory(NewHistoryItem(p, r, isoTime), history);
            }
          case Failure(t) =>
            error := Some(FAILURE_PREFIX + ErrorMessage(t));
        }
      }
      isLoading := false;
    }

    /** `handleSubmit` from start to finish without anything in between. */
    method HandleSubmit(outcome: ServiceOutcome, isoTime: string) returns (request: Option<EditRequest>)
      requires Valid()
      modifies this
      ensures Valid() && State() == Submitted(old(State()), outcome, isoTime)
      ensures request == SubmitRequest(old(State()))
    {
      var pending := BeginSubmit();
      if pending.None? {
        request := None;
      } else {
        request := CompleteSubmit(pending.value, outcome, isoTime);
      }
    }

    method LoadFromHistory(item: HistoryItem)
      requires Valid()
      modifies this
      ensures Valid() && State() == HistoryLoaded(old(State()), item)
    {
      originalImage := None;
      originalImagePreview := Some(item.originalImagePreview);
      prompt := item.prompt;
      editResult := Some(EditResult(Some(item.editedImageUrl), item.editedImageText));
      error := None;
      isLoading := false;
    }

    method ClearHistory()
      requires Valid()
      modifies this
      ensures Valid() && State() == HistoryCleared(old(State()))
    {
      history := [];
    }
  }
}
