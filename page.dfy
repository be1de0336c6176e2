/**
 * The page component's state (the image preview, the annotation list, the
 * loading flag and the OCR worker handle) and the handlers that change it:
 * the file-input handler that preprocesses, recognizes and builds the
 * annotations, and the edit handlers of each overlay.
 */
module Page {
  import opened Wrappers
  import opened Annotation
  import opened Editing
  import Preprocess

  /** A file the user picked; only its name is modelled, its content reaches the model through the outcomes of preprocessing and recognition. */
  datatype File = File(name: string)

  /** `e.target.files?.[0]`: no file list, or an empty one, gives no file. */
  function FirstFile(files: Option<seq<File>>): (f: Option<File>)
    ensures f.Some? <==> files.Some? && |files.value| > 0
    ensures f.Some? ==> f.value == files.value[0]
  {
    if files.Some? && |files.value| > 0 then Some(files.value[0]) else None
  }

  /** The component's four pieces of state; the worker only as whether it is ready. */
  datatype PageState = PageState(loading: bool, imageSrc: Option<string>, words: seq<OCRWord>, workerReady: bool)

  /** Where the upload handler leaves the state, and whether it runs to its end (`false`: an `await` never resumes). */
  datatype Upload = Upload(state: PageState, finished: bool)

  /**
   * The effect of `handleFileChange` on state `s`, for the picked file, the
   * object URL created for it, and how preprocessing and recognition end.
   *  - With no file, or no worker yet, it returns at once and changes nothing.
   *  - Otherwise it shows the image and sets `loading`; `loading` is cleared
   *    exactly when the handler reaches its `finally`, which it does unless one
   *    of the two awaited promises stays pending.
   *  - The annotation list is replaced, by the annotations of the recognized
   *    words, only when both steps succeed; on any failure it is kept.
   */
  function AfterFileChange(s: PageState, file: Option<File>, url: string,
                           pre: Promise<Preprocess.ProcessedImage>, ocr: Promise<seq<RecognizedWord>>): (u: Upload)
    ensures file.None? || !s.workerReady ==> u == Upload(s, true)
    ensures u.state.workerReady == s.workerReady
    ensures file.Some? && s.workerReady ==>
      && u.state.imageSrc == Some(url)
      && u.state.loading == !u.finished
      && (u.finished <==> pre.Rejected? || (pre.Fulfilled? && !ocr.Pending?))
    ensures u.state.words ==
      if file.Some? && s.workerReady && pre.Fulfilled? && ocr.Fulfilled? then Annotate(ocr.value) else s.words
  {
    if file.None? || !s.workerReady then Upload(s, true)
    else
      var shown := s.(loading := true, imageSrc := Some(url));
      match pre
      case Pending => Upload(shown, false)
      case Rejected => Upload(shown.(loading := false), true)
      case Fulfilled(_) =>
        match ocr
        case Pending => Upload(shown, false)
        case Rejected => Upload(shown.(loading := false), true)
        case Fulfilled(ws) => Upload(shown.(words := Annotate(ws), loading := false), true)
  }

  /**
   * Whenever a preprocessing step fails (the file never loads as an image, the
   * canvas has no 2D context or no pixels, or `toBlob` gives no blob), the page
   * keeps showing "Running OCR..." until a later upload finishes, and its
   * annotations are kept: this run of the handler never reaches its `finally`,
   * whatever recognition would have done.
   */
  lemma FailedPreprocessKeepsLoading(s: PageState, f: File, url: string,
                                     decoded: Option<Preprocess.Size>, hasContext: bool,
                                     drawn: seq<Preprocess.byte>, blobOk: bool,
                                     ocr: Promise<seq<RecognizedWord>>)
    requires s.workerReady
    requires decoded.Some? ==> |drawn| == Preprocess.BufferLength(Preprocess.CanvasSize(decoded.value))
    requires !Preprocess.PreprocessSucceeds(decoded, hasContext, blobOk)
    ensures var u := AfterFileChange(s, Some(f), url, Preprocess.PreprocessOutcome(decoded, hasContext, drawn, blobOk), ocr);
      !u.finished && u.state.loading && u.state.words == s.words
  {
  }

  /** The smallest such input: a picked file that is not an image at all. */
  lemma UndecodableFileKeepsLoading(ocr: Promise<seq<RecognizedWord>>)
    ensures var s := PageState(false, None, [], true);
      var u := AfterFileChange(s, Some(File("notes.txt")), "blob:1", Preprocess.PreprocessOutcome(None, true, [], true), ocr);
      !u.finished && u.state.loading
  {
    FailedPreprocessKeepsLoading(PageState(false, None, [], true), File("notes.txt"), "blob:1", None, true, [], true, ocr);
  }

  /**
   * With a preprocessing step that rejects on failure, every upload that gets
   * past the guards ends with `loading` cleared, provided recognition settles.
   */
  lemma FixedPreprocessAlwaysClearsLoading(s: PageState, f: File, url: string,
                                           decoded: Option<Preprocess.Size>, hasContext: bool,
                                           drawn: seq<Preprocess.byte>, blobOk: bool,
                                           ocr: Promise<seq<RecognizedWord>>)
    requires s.workerReady && !ocr.Pending?
    requires decoded.Some? ==> |drawn| == Preprocess.BufferLength(Preprocess.CanvasSize(decoded.value))
    ensures var u := AfterFileChange(s, Some(f), url, Preprocess.PreprocessOutcomeFixed(decoded, hasContext, drawn, blobOk), ocr);
      u.finished && !u.state.loading
  {
  }

  /**
   * The preview `<img>` shows the uploaded image at its own size, while the
   * boxes come from the OCR engine, which was given the canvas twice that size.
   * An overlay placed at the box therefore lands at twice the word's position
   * on the preview: a word in the right half of the canvas gets an overlay that
   * starts at or beyond the preview's right edge.
   */
  lemma OverlayOffPreview(img: Preprocess.Size, w: RecognizedWord)
    requires img.width <= w.bbox.x0 < Preprocess.CanvasSize(img).width
    ensures Overlay(FromRecognized(w)).left >= img.width
  {
  }

  /** A 100-pixel-wide upload with a word at x = 150..190 on the canvas: its overlay starts 50 pixels past the preview. */
  lemma OverlayOffPreviewExample()
    ensures var st := Overlay(FromRecognized(RecognizedWord("HELLO", BBox(150, 10, 190, 30))));
      st.left == 150 && st.left > Preprocess.Size(100, 50).width
  {
  }

  /**
   * The overlay in preview pixels: the canvas box divided by the preprocessing
   * scale, rounded down. Each preview edge is the canvas edge brought back to
   * the preview's scale, to within one preview pixel.
   */
  function PreviewOverlay(w: OCRWord): (st: OverlayStyle)
    ensures Preprocess.Scale * st.left <= w.bbox.x0 < Preprocess.Scale * (st.left + 1)
    ensures Preprocess.Scale * st.top <= w.bbox.y0 < Preprocess.Scale * (st.top + 1)
    ensures Preprocess.Scale * (st.left + st.width) <= w.bbox.x1 < Preprocess.Scale * (st.left + st.width + 1)
    ensures Preprocess.Scale * (st.top + st.height) <= w.bbox.y1 < Preprocess.Scale * (st.top + st.height + 1)
    ensures st.fontSize == w.fontSize && st.fontFamily == w.fontFamily
  {
    var b := w.bbox;
    var left, top := b.x0 / Preprocess.Scale, b.y0 / Preprocess.Scale;
    OverlayStyle(left, top, b.x1 / Preprocess.Scale - left, b.y1 / Preprocess.Scale - top, w.fontSize, w.fontFamily)
  }

  /** Every word the OCR engine finds on the canvas gets a corrected overlay that lies on the preview. */
  lemma PreviewOverlayOnPreview(img: Preprocess.Size, w: OCRWord)
    requires 0 <= w.bbox.x0 <= w.bbox.x1 <= Preprocess.CanvasSize(img).width
    requires 0 <= w.bbox.y0 <= w.bbox.y1 <= Preprocess.CanvasSize(img).height
    ensures var st := PreviewOverlay(w);
      && 0 <= st.left && 0 <= st.width && st.left + st.width <= img.width
      && 0 <= st.top && 0 <= st.height && st.top + st.height <= img.height
  {
  }

  /** The `Index` component with its state hooks as fields. */
  class IndexPage {
    var imageSrc: Option<string>
    var ocrWords: seq<OCRWord>
    var loading: bool
    var workerReady: bool

    function State(): PageState
      reads this
    {
      PageState(loading, imageSrc, ocrWords, workerReady)
    }

    /** The initial state: no image, no annotations, not loading, no worker. */
    constructor ()
      ensures State() == PageState(false, None, [], false)
    {
      imageSrc, ocrWords, loading, workerReady := None, [], false, false;
    }

    /** `setWorker(w)` once the mount effect's `createWorker` has resolved. */
    method WorkerCreated()
      modifies this
      ensures State() == old(State()).(workerReady := true)
    {
      workerReady := true;
    }

    /**
     * `handleFileChange`, step by step: the two guards, `setLoading(true)`, the
     * preview, then the awaited preprocessing and recognition inside `try`,
     * with `setLoading(false)` in `finally`.
     */
    method HandleFileChange(files: Option<seq<File>>, url: string,
                            pre: Promise<Preprocess.ProcessedImage>, ocr: Promise<seq<RecognizedWord>>)
      returns (finished: bool)
      modifies this
      ensures Upload(State(), finished) == AfterFileChange(old(State()), FirstFile(files), url, pre, ocr)
    {
      var file := FirstFile(files);
      if file.None? {
        return true;
      }
      if !workerReady {
        return true;
      }
      loading := true;
      imageSrc := Some(url);
      // try
      match pre {
        case Pending =>
          return false;
        case Rejected =>
        case Fulfilled(_) =>
          match ocr {
            case Pending =>
              return false;
            case Rejected =>
            case Fulfilled(ws) =>
              ocrWords := Annotate(ws);
          }
      }
      // finally
      loading := false;
      finished := true;
    }

    /** `updateWord(idx, key, value)`: one field of one annotation changes, nothing else. */
    method UpdateWord(idx: int, key: Field, value: Value)
      requires 0 <= idx < |ocrWords| && Fits(key, value)
      modifies this
      ensures State() == old(State()).(words := Updated(old(ocrWords), idx, key, value))
    {
      var arr := ocrWords;
      arr := arr[idx := SetField(arr[idx], key, value)];
      ocrWords := arr;
    }

    /** The translation input of overlay `idx`. */
    method OnTranslatedChange(idx: int, input: string)
      requires 0 <= idx < |ocrWords|
      modifies this
      ensures State() == old(State()).(words := Updated(old(ocrWords), idx, Translated, Str(input)))
    {
      UpdateWord(idx, Translated, Str(input));
    }

    /** The font-size input of overlay `idx`: the stored size is never zero. */
    method OnFontSizeChange(idx: int, input: string)
      requires 0 <= idx < |ocrWords|
      modifies this
      ensures State() == old(State()).(words := Updated(old(ocrWords), idx, FontSize, Num(FontSizeOf(input))))
      ensures ocrWords[idx].fontSize != 0
    {
      UpdateWord(idx, FontSize, Num(FontSizeOf(input)));
    }

    /** The font-family input of overlay `idx`. */
    method OnFontFamilyChange(idx: int, input: string)
      requires 0 <= idx < |ocrWords|
      modifies this
      ensures State() == old(State()).(words := Updated(old(ocrWords), idx, FontFamily, Str(input)))
    {
      UpdateWord(idx, FontFamily, Str(input));
    }
  }
}
