/**
 * The annotation record a page keeps for each recognized word, how the OCR
 * word list is turned into annotations, and where each annotation's overlay
 * box is placed on the page image.
 */
module Annotation {

  /**
   * An axis-aligned box, (x0, y0) top-left and (x1, y1) bottom-right, in the
   * pixels of the image the OCR engine was given, which is the 2x preprocessing
   * canvas, not the uploaded image.
   */
  datatype BBox = BBox(x0: int, y0: int, x1: int, y1: int)

  /** One word of the OCR engine's result, as far as the page reads it. */
  datatype RecognizedWord = RecognizedWord(text: string, bbox: BBox)

  /** The `OCRWord` record: the recognized text and the user's editable overlay for it. */
  datatype OCRWord = OCRWord(text: string, translated: string, bbox: BBox, fontSize: int, fontFamily: string)

  const DefaultFontSize: int := 16
  const DefaultFontFamily: string := "Arial"

  /** A freshly built annotation of `w`. */
  function FromRecognized(w: RecognizedWord): OCRWord
  {
    OCRWord(w.text, w.text, w.bbox, DefaultFontSize, DefaultFontFamily)
  }

  /** An annotation nobody has edited yet: the translation is the text, fonts are the defaults. */
  predicate IsFresh(a: OCRWord)
  {
    a.translated == a.text && a.fontSize == DefaultFontSize && a.fontFamily == DefaultFontFamily
  }

  /** The recognized word an annotation was built from. */
  function Source(a: OCRWord): RecognizedWord
  {
    RecognizedWord(a.text, a.bbox)
  }

  /**
   * The `data.words.map(...)` of the upload handler: one annotation per word, in
   * the same order, each a fresh copy of that word's text and box.
   */
  function Annotate(ws: seq<RecognizedWord>): (r: seq<OCRWord>)
    ensures |r| == |ws|
    ensures forall i :: 0 <= i < |ws| ==>
      && r[i].text == ws[i].text
      && r[i].translated == ws[i].text
      && r[i].bbox == ws[i].bbox
      && r[i].fontSize == 16
      && r[i].fontFamily == "Arial"
  {
    if ws == [] then [] else [FromRecognized(ws[0])] + Annotate(ws[1..])
  }

  /** The word list an annotation list was built from. */
  function Sources(anns: seq<OCRWord>): seq<RecognizedWord>
  {
    if anns == [] then [] else [Source(anns[0])] + Sources(anns[1..])
  }

  /** Building annotations loses nothing of the OCR result: it can be read back. */
  lemma {:induction false} SourcesOfAnnotate(ws: seq<RecognizedWord>)
    ensures Sources(Annotate(ws)) == ws
  {
    if ws != [] {
      SourcesOfAnnotate(ws[1..]);
      assert Annotate(ws)[1..] == Annotate(ws[1..]);
    }
  }

  /**
   * `Annotate(ws)` is exactly the list of fresh annotations whose sources are
   * `ws`, position by position.
   */
  lemma AnnotateCharacterized(ws: seq<RecognizedWord>, r: seq<OCRWord>)
    ensures r == Annotate(ws) <==>
      |r| == |ws| && forall i :: 0 <= i < |r| ==> IsFresh(r[i]) && Source(r[i]) == ws[i]
  {
  }

  /** The geometric and font part of an overlay's CSS style, in pixels. */
  datatype OverlayStyle = OverlayStyle(left: int, top: int, width: int, height: int, fontSize: int, fontFamily: string)

  /**
   * The style of the absolutely positioned box over an annotation: it starts at
   * the box's top-left corner and ends exactly at its bottom-right corner, and
   * it uses the annotation's own font.
   */
  function Overlay(w: OCRWord): (st: OverlayStyle)
    ensures st.left == w.bbox.x0 && st.top == w.bbox.y0
    ensures st.left + st.width == w.bbox.x1 && st.top + st.height == w.bbox.y1
    ensures st.width >= 0 <==> w.bbox.x0 <= w.bbox.x1
    ensures st.height >= 0 <==> w.bbox.y0 <= w.bbox.y1
    ensures st.fontSize == w.fontSize && st.fontFamily == w.fontFamily
  {
    OverlayStyle(w.bbox.x0, w.bbox.y0, w.bbox.x1 - w.bbox.x0, w.bbox.y1 - w.bbox.y0, w.fontSize, w.fontFamily)
  }

  /** The box a style covers. */
  function Covered(st: OverlayStyle): BBox
  {
    BBox(st.left, st.top, st.left + st.width, st.top + st.height)
  }

  /** Every overlay covers exactly its annotation's bounding box. */
  lemma OverlayCoversBox(w: OCRWord)
    ensures Covered(Overlay(w)) == w.bbox
  {
  }
}
