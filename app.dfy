/** The page of App.tsx: which controls are enabled and which panels are
    shown for a given session state, the `isSharpened` flag the page keeps
    itself, and the two handlers that reset that flag before delegating to
    the editing hook. */
module App {
  import opened Types
  import opened ImageEditing
  import ImageDisplay

  /** The Generate button is enabled: the negation of
      `!originalImage || !prompt || isLoading`. */
  predicate GenerateEnabled(s: SessionState) {
    !(s.originalImage.None? || s.prompt == "" || s.isLoading)
  }

  /** The prompt box is disabled: `!originalImage || isLoading`. */
  predicate PromptDisabled(s: SessionState) {
    s.originalImage.None? || s.isLoading
  }

  /** `editResult?.imageUrl`. */
  function EditedImageUrl(s: SessionState): Option<string> {
    if s.editResult.Some? then s.editResult.value.imageUrl else None
  }

  /** `editResult?.text`. */
  function EditedText(s: SessionState): Option<string> {
    if s.editResult.Some? then s.editResult.value.text else None
  }

  /** `editResult?.imageUrl && !isLoading`: the condition under which the
      edited pane is downloadable and the enhance toggle is shown. */
  predicate ResultReady(s: SessionState) {
    Truthy(EditedImageUrl(s)) && !s.isLoading
  }

  /** `history.length > 0`. */
  predicate HistoryPanelShown(s: SessionState) {
    |s.history| > 0
  }

  /** The properties the page gives the left-hand pane. */
  function OriginalPane(s: SessionState): ImageDisplay.Props {
    ImageDisplay.Props("Original", s.originalImagePreview, false, None, false, false)
  }

  /** The properties the page gives the right-hand pane. */
  function EditedPane(s: SessionState, isSharpened: bool): ImageDisplay.Props {
    ImageDisplay.Props("Edited", EditedImageUrl(s), s.isLoading, EditedText(s), ResultReady(s), isSharpened)
  }

  /** Outside a request, the Generate button is enabled exactly when the
      submit guard would admit a submission; a click on the enabled button
      starts a request, after which the button and the prompt box are
      disabled until it settles. */
  lemma GenerateMatchesGuard(s: SessionState)
    ensures !s.isLoading ==> (GenerateEnabled(s) <==> SubmitAdmitted(s))
    ensures GenerateEnabled(s) ==>
      && Captured(s).Some?
      && !GenerateEnabled(SubmitStarted(s))
      && PromptDisabled(SubmitStarted(s))
  {
  }

  /** While a request is loading, neither choosing a file nor typing a
      prompt enables the Generate button again. */
  lemma LoadingKeepsGenerateDisabled(s: SessionState, file: Option<ImageFile>, text: string)
    requires s.isLoading
    ensures !GenerateEnabled(s) && !ResultReady(s)
    ensures !GenerateEnabled(ImageChanged(s, file))
    ensures !GenerateEnabled(PromptSet(s, text))
  {
  }

  /** Loading a history entry disables Generate and the prompt box (no
      file is chosen), and shows the entry's result as ready exactly when
      its edited image is non-empty. */
  lemma HistoryLoadDisablesGenerate(s: SessionState, item: HistoryItem)
    ensures var t := HistoryLoaded(s, item);
      && !GenerateEnabled(t)
      && PromptDisabled(t)
      && (ResultReady(t) <==> item.editedImageUrl != "")
  {
  }

  /** The only guard against a second request is the disabled button, and
      it can be lifted while a request is still in flight: loading a history
      entry resets `isLoading`, and choosing a file afterwards re-enables
      Generate although the first request has not settled. */
  lemma SecondRequestWhileFirstInFlight(s: SessionState, item: HistoryItem, f: ImageFile)
    requires SubmitAdmitted(s) && item.prompt != ""
    ensures var inFlight := SubmitStarted(s);
      && inFlight.isLoading
      && GenerateEnabled(ImageChanged(HistoryLoaded(inFlight, item), Some(f)))
  {
  }

  /** The edited pane offers a download exactly when the result is ready,
      and then shows the result's image, with the enhanced look as the
      page's flag says. The original pane never offers one. */
  lemma EditedPaneDownload(s: SessionState, isSharpened: bool)
    ensures ImageDisplay.DownloadButtonShown(EditedPane(s, isSharpened)) <==> ResultReady(s)
    ensures ResultReady(s) ==>
      && ImageDisplay.Render(EditedPane(s, isSharpened)).Picture?
      && ImageDisplay.Render(EditedPane(s, isSharpened)).source == EditedImageUrl(s).value
      && ImageDisplay.Render(EditedPane(s, isSharpened)).enhancedLook == isSharpened
    ensures !ImageDisplay.DownloadButtonShown(OriginalPane(s))
  {
  }

  /** A successful edit with an image and a preview makes the history
      panel appear; clearing the history hides it. */
  lemma HistoryPanelVisibility(s: SessionState, r: EditResult, isoTime: string)
    ensures !HistoryPanelShown(HistoryCleared(s))
    ensures SubmitAdmitted(s) && FileToBase64(s.originalImage.value.dataUrl).Ok?
            && Truthy(r.imageUrl) && Truthy(s.originalImagePreview)
            ==> HistoryPanelShown(Submitted(s, Success(r), isoTime))
  {
  }

  /** The page: the editing hook's state and the page's own `isSharpened`
      flag. */
  class Screen {
    const session: Session
    var isSharpened: bool

    ghost predicate Valid()
      reads this, session
    {
      session.Valid()
    }

    constructor ()
      ensures Valid() && fresh(session)
      ensures session.State() == InitialState && !isSharpened
    {
      session := new Session();
      isSharpened := false;
    }

    /** `onImageSelected`: the enhance flag is reset, then the file (or
        its absence) is handed to the hook. */
    method OnImageSelected(file: Option<ImageFile>)
      requires Valid()
      modifies this, session
      ensures Valid() && !isSharpened
      ensures session.State() == ImageChanged(old(session.State()), file)
    {
      isSharpened := false;
      session.HandleImageChange(file);
    }

    /** `onGenerateClick`: the enhance flag is reset, then `handleSubmit`
        starts; what it goes on with is returned, to be completed with
        `session.CompleteSubmit` when the service answers. */
    method OnGenerateClick() returns (pending: Option<Pending>)
      requires Valid()
      modifies this, session
      ensures Valid() && !isSharpened
      ensures session.State() == SubmitStarted(old(session.State()))
      ensures pending == Captured(old(session.State()))
    {
      isSharpened := false;
      pending := session.BeginSubmit();
    }

    /** The enhance toggle's `onToggle`. */
    method OnToggle(enhanced: bool)
      requires Valid()
      modifies this
      ensures Valid() && isSharpened == enhanced
      ensures session.State() == old(session.State())
    {
      isSharpened := enhanced;
    }

    /** The prompt box's `setPrompt`. */
    method OnPromptChange(text: string)
      requires Valid()
      modifies session
      ensures Valid() && isSharpened == old(isSharpened)
      ensures session.State() == PromptSet(old(session.State()), text)
    {
      session.SetPrompt(text);
    }
  }
}
