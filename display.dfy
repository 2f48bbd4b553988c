/** The image pane of components/ImageDisplay.tsx: which of spinner,
    picture or placeholder it shows, whether its download button appears,
    how a download is prepared, and the file name the download gets.
    Canvas re-encoding, blob plumbing and the DOM are not modelled; the
    clock reading is an input (`now`, the value of `Date.now()`). */
module ImageDisplay {
  import opened Types
  import opened Text

  /** The pane's properties; unset optional flags are `false`. */
  datatype Props = Props(
    paneLabel: string,
    imageUrl: Option<string>,
    isLoading: bool,
    textOverlay: Option<string>,
    isDownloadable: bool,
    isSharpened: bool)

  /** What the pane's body shows. A picture carries its source, the caption
      laid over it (if any) and whether the enhanced look is applied. */
  datatype Pane =
    | Spinner
    | Picture(source: string, caption: Option<string>, enhancedLook: bool)
    | Placeholder(paneLabel: string)

  /** The render choice: loading wins over an image, an image over the
      placeholder; the caption appears only when it is non-empty. */
  function Render(p: Props): (pane: Pane)
    ensures pane.Spinner? <==> p.isLoading
    ensures pane.Picture? <==> !p.isLoading && Truthy(p.imageUrl)
    ensures pane.Picture? ==> pane.source == p.imageUrl.value && pane.enhancedLook == p.isSharpened
    ensures pane.Picture? ==> (pane.caption.Some? <==> Truthy(p.textOverlay))
    ensures pane.Picture? && pane.caption.Some? ==> pane.caption == p.textOverlay
    ensures pane.Placeholder? ==> pane.paneLabel == p.paneLabel
  {
    if p.isLoading then Spinner
    else if Truthy(p.imageUrl) then
      Picture(p.imageUrl.value, if Truthy(p.textOverlay) then p.textOverlay else None, p.isSharpened)
    else Placeholder(p.paneLabel)
  }

  /** `isDownloadable && imageUrl && !isLoading`. */
  predicate DownloadButtonShown(p: Props) {
    p.isDownloadable && Truthy(p.imageUrl) && !p.isLoading
  }

  /** How `handleDownload` goes about a download: not at all without an
      image, by drawing the image onto a canvas and exporting it as PNG
      when the enhanced look is on, and by fetching the image otherwise. */
  datatype DownloadPlan = NoDownload | ReencodeAsPng(source: string) | FetchBlob(source: string)

  function PlanDownload(p: Props): (plan: DownloadPlan)
    ensures plan.NoDownload? <==> !Truthy(p.imageUrl)
    ensures plan.ReencodeAsPng? <==> Truthy(p.imageUrl) && p.isSharpened
    ensures !plan.NoDownload? ==> plan.source == p.imageUrl.value
  {
    if !Truthy(p.imageUrl) then NoDownload
    else if p.isSharpened then ReencodeAsPng(p.imageUrl.value)
    else FetchBlob(p.imageUrl.value)
  }

  /** The type of the blob handed to `triggerDownload`: the canvas export
      asks for `image/png`; a fetched blob has whatever type the response
      had. */
  function BlobType(plan: DownloadPlan, fetchedType: string): string
    requires !plan.NoDownload?
  {
    if plan.ReencodeAsPng? then "image/png" else fetchedType
  }

  /** `(blob.type.split('/')[1] || 'png').split('+')[0]`. */
  function Extension(blobType: string): (ext: string)
    ensures '/' !in ext && '+' !in ext
  {
    var subtype := match Segment(blobType, '/', 1)
      case Some(x) => if x != "" then x else "png"
      case None => "png";
    var ext := Split(subtype, '+')[0];
    assert '/' !in ext by {
      SplitAtFirst(subtype, '+');
      var i := IndexOf(subtype, '+');
      assert i >= 0 ==> ext == subtype[..i];
    }
    ext
  }

  /** A MIME type `top/sub` with an optional `+suffix` gives `sub`. */
  lemma ExtensionOfMimeType(top: string, sub: string, suffix: string)
    requires '/' !in top && '/' !in sub && '/' !in suffix
    requires '+' !in sub && sub != ""
    requires suffix == [] || suffix[0] == '+'
    ensures Extension(top + ['/'] + sub + suffix) == sub
  {
    var rest := sub + suffix;
    assert top + ['/'] + sub + suffix == top + ['/'] + rest;
    SplitAfterPiece(top, '/', rest);
    SplitWithoutSeparator(rest, '/');
    if suffix == [] {
      assert rest == sub;
      SplitWithoutSeparator(sub, '+');
    } else {
      assert rest == sub + ['+'] + suffix[1..];
      SplitAfterPiece(sub, '+', suffix[1..]);
    }
  }

  /** Without a non-empty subtype the extension falls back to `png`. */
  lemma ExtensionFallsBackToPng(blobType: string)
    requires Segment(blobType, '/', 1) == None || Segment(blobType, '/', 1) == Some("")
    ensures Extension(blobType) == "png"
  {
    SplitWithoutSeparator("png", '+');
  }

  /** `image/svg+xml` gives `svg`. */
  lemma ExtensionOfSvg()
    ensures Extension("image/svg+xml") == "svg"
  {
    ExtensionOfMimeType("image", "svg", "+xml");
    assert "image/svg+xml" == "image" + ['/'] + "svg" + "+xml";
  }

  /** `image/jpeg` gives `jpeg`. */
  lemma ExtensionOfJpeg()
    ensures Extension("image/jpeg") == "jpeg"
  {
    ExtensionOfMimeType("image", "jpeg", "");
    assert "image/jpeg" == "image" + ['/'] + "jpeg" + "";
  }

  /** The empty type and a bare `image` give `png`. */
  lemma ExtensionDefaultExamples()
    ensures Extension("") == "png"
    ensures Extension("image") == "png"
  {
    ExtensionFallsBackToPng("");
    SplitWithoutSeparator("image", '/');
    ExtensionFallsBackToPng("image");
  }

  /** A subtype that begins with `+` is truthy, so no fallback applies,
      and the extension is empty: `image/+xml` is saved as `edit-<now>.`. */
  lemma ExtensionEmptyForPlusSubtype()
    ensures Extension("image/+xml") == ""
  {
    SplitAfterPiece("image", '/', "+xml");
    assert "image/+xml" == "image" + ['/'] + "+xml";
    SplitWithoutSeparator("+xml", '/');
    SplitAfterPiece("", '+', "xml");
    assert "+xml" == "" + ['+'] + "xml";
  }

  /** `enhanced-edit-<now>` or `edit-<now>`. */
  function FileStem(isSharpened: bool, now: nat): string {
    (if isSharpened then "enhanced-edit-" else "edit-") + Decimal(now)
  }

  /** `${filename}.${extension}`. */
  function DownloadName(isSharpened: bool, now: nat, blobType: string): string {
    FileStem(isSharpened, now) + "." + Extension(blobType)
  }

  /** The name says whether the enhanced look was exported, both ways. */
  lemma DownloadNameMarksEnhanced(isSharpened: bool, now: nat, blobType: string)
    ensures var name := DownloadName(isSharpened, now, blobType);
      isSharpened <==> (|name| >= 9 && name[..9] == "enhanced-")
  {
    var name := DownloadName(isSharpened, now, blobType);
    if !isSharpened {
      assert name[1] == 'd';
    } else {
      assert name[..9] == "enhanced-";
    }
  }

  /** The name is a plain file name: no path separator in it. */
  lemma DownloadNameHasNoSlash(isSharpened: bool, now: nat, blobType: string)
    ensures '/' !in DownloadName(isSharpened, now, blobType)
  {
    var d := Decimal(now);
    assert '/' !in d by {
      forall i | 0 <= i < |d| ensures d[i] != '/' {
        assert '0' <= d[i] <= '9';
      }
    }
    assert '/' !in (if isSharpened then "enhanced-edit-" else "edit-");
  }

  /** An enhanced download is always a PNG named `enhanced-edit-<now>.png`,
      whatever the shown image's type. */
  lemma EnhancedDownloadIsPng(p: Props, now: nat, fetchedType: string)
    requires Truthy(p.imageUrl) && p.isSharpened
    ensures PlanDownload(p) == ReencodeAsPng(p.imageUrl.value)
    ensures DownloadName(p.isSharpened, now, BlobType(PlanDownload(p), fetchedType))
            == "enhanced-edit-" + Decimal(now) + ".png"
  {
    ExtensionOfMimeType("image", "png", "");
    assert "image/png" == "image" + ['/'] + "png" + "";
  }

  /** The download button appears only over a shown picture, and pressing
      it always has something to download: the early return of
      `handleDownload` is never reached from the button. */
  lemma DownloadButtonOverPicture(p: Props)
    requires DownloadButtonShown(p)
    ensures Render(p) == Picture(p.imageUrl.value, Render(p).caption, p.isSharpened)
    ensures PlanDownload(p) != NoDownload
  {
  }
}
