/**
 * Editing one annotation: `updateWord(idx, key, value)` replaces one field of
 * one record in the annotation list, and the font-size field turns what the
 * user typed into a number with `parseInt(text) || 16`.
 */
module Editing {
  import opened Wrappers
  import opened Annotation
  import JsParseInt

  /** The keys of `OCRWord`, which `updateWord` takes as `key`. */
  datatype Field = Text | Translated | Box | FontSize | FontFamily

  /** The values a key can hold (`updateWord` takes `value: any`). */
  datatype Value = Str(s: string) | Num(n: int) | Rect(b: BBox)

  /** `v` has the type of the field `key` declares in `OCRWord`. */
  predicate Fits(key: Field, v: Value)
  {
    match key
    case Text => v.Str?
    case Translated => v.Str?
    case FontFamily => v.Str?
    case FontSize => v.Num?
    case Box => v.Rect?
  }

  /** `w[key]`. */
  function Get(w: OCRWord, key: Field): (v: Value)
    ensures Fits(key, v)
  {
    match key
    case Text => Str(w.text)
    case Translated => Str(w.translated)
    case Box => Rect(w.bbox)
    case FontSize => Num(w.fontSize)
    case FontFamily => Str(w.fontFamily)
  }

  /** Two records with the same value in every field are the same record. */
  lemma SameFieldsSameWord(a: OCRWord, b: OCRWord)
    requires forall f: Field :: Get(a, f) == Get(b, f)
    ensures a == b
  {
    assert Get(a, Text) == Get(b, Text);
    assert Get(a, Translated) == Get(b, Translated);
    assert Get(a, Box) == Get(b, Box);
    assert Get(a, FontSize) == Get(b, FontSize);
    assert Get(a, FontFamily) == Get(b, FontFamily);
  }

  /** `w[key] = v`: the record with field `key` set to `v` and every other field as it was. */
  function SetField(w: OCRWord, key: Field, v: Value): (r: OCRWord)
    requires Fits(key, v)
    ensures Get(r, key) == v
    ensures forall f: Field :: f != key ==> Get(r, f) == Get(w, f)
  {
    match key
    case Text => w.(text := v.s)
    case Translated => w.(translated := v.s)
    case Box => w.(bbox := v.b)
    case FontSize => w.(fontSize := v.n)
    case FontFamily => w.(fontFamily := v.s)
  }

  /**
   * The annotation list after `updateWord(idx, key, v)`: as long as before,
   * field `key` of entry `idx` is `v`, the other fields of that entry are as
   * they were, and every other entry is as it was. An index outside the list
   * makes the source dereference `undefined` and throw, hence the requirement.
   */
  function Updated(ws: seq<OCRWord>, idx: int, key: Field, v: Value): (r: seq<OCRWord>)
    requires 0 <= idx < |ws| && Fits(key, v)
    ensures |r| == |ws|
    ensures Get(r[idx], key) == v
    ensures forall f: Field :: f != key ==> Get(r[idx], f) == Get(ws[idx], f)
    ensures forall j :: 0 <= j < |ws| && j != idx ==> r[j] == ws[j]
  {
    ws[idx := SetField(ws[idx], key, v)]
  }

  /** The contract of `Updated` determines its result: any list with those properties is that result. */
  lemma UpdatedCharacterized(ws: seq<OCRWord>, idx: int, key: Field, v: Value, r: seq<OCRWord>)
    requires 0 <= idx < |ws| && Fits(key, v)
    ensures r == Updated(ws, idx, key, v) <==>
      && |r| == |ws|
      && Get(r[idx], key) == v
      && (forall f: Field :: f != key ==> Get(r[idx], f) == Get(ws[idx], f))
      && (forall j :: 0 <= j < |ws| && j != idx ==> r[j] == ws[j])
  {
    var u := Updated(ws, idx, key, v);
    if && |r| == |ws|
       && Get(r[idx], key) == v
       && (forall f: Field :: f != key ==> Get(r[idx], f) == Get(ws[idx], f))
       && (forall j :: 0 <= j < |ws| && j != idx ==> r[j] == ws[j])
    {
      SameFieldsSameWord(r[idx], u[idx]);
      assert forall j :: 0 <= j < |r| ==> r[j] == u[j];
    }
  }

  /** Writing the value a field already holds changes nothing. */
  lemma UpdateWithCurrentValue(ws: seq<OCRWord>, idx: int, key: Field)
    requires 0 <= idx < |ws|
    ensures Updated(ws, idx, key, Get(ws[idx], key)) == ws
  {
  }

  /** Of two writes to the same field of the same entry, the later one wins. */
  lemma LastUpdateWins(ws: seq<OCRWord>, idx: int, key: Field, v1: Value, v2: Value)
    requires 0 <= idx < |ws| && Fits(key, v1) && Fits(key, v2)
    ensures Updated(Updated(ws, idx, key, v1), idx, key, v2) == Updated(ws, idx, key, v2)
  {
  }

  /** Writes to different entries, or to different fields of one entry, can be made in either order. */
  lemma UpdatesCommute(ws: seq<OCRWord>, i: int, k: Field, v: Value, j: int, l: Field, u: Value)
    requires 0 <= i < |ws| && Fits(k, v)
    requires 0 <= j < |ws| && Fits(l, u)
    requires i != j || k != l
    ensures Updated(Updated(ws, i, k, v), j, l, u) == Updated(Updated(ws, j, l, u), i, k, v)
  {
  }

  /** `parseInt(text) || 16`: `NaN` and zero (both falsy) become the default size. */
  function CoerceFontSize(parsed: Option<int>): (size: int)
    ensures size != 0
    ensures parsed.Some? && parsed.value != 0 ==> size == parsed.value
    ensures parsed.None? || parsed.value == 0 ==> size == DefaultFontSize
  {
    if parsed.Some? && parsed.value != 0 then parsed.value else DefaultFontSize
  }

  /**
   * `parseInt(input) || 16`, the font size stored for what the user typed into
   * the size field: never zero, the default when the text does not parse.
   */
  function FontSizeOf(input: string): (size: int)
    ensures size != 0
    ensures JsParseInt.ParseInt(input).None? ==> size == DefaultFontSize
    ensures JsParseInt.ParseInt(input).Some? && JsParseInt.ParseInt(input).value != 0 ==> size == JsParseInt.ParseInt(input).value
  {
    CoerceFontSize(JsParseInt.ParseInt(input))
  }

  /**
   * The size field stores the integer the user typed, whatever non-digit
   * follows it; typing `0` stores the default size instead.
   */
  lemma FontSizeOfNumeral(n: int, rest: string)
    requires rest == [] || JsParseInt.DigitValue(rest[0]) >= 10
    requires n == 0 && rest != [] ==> rest[0] != 'x' && rest[0] != 'X'
    ensures FontSizeOf(JsParseInt.IntToString(n) + rest) == if n == 0 then DefaultFontSize else n
  {
    JsParseInt.ParseIntOfNumeral(n, rest);
  }

  /** Clearing the size field stores the default size. */
  lemma FontSizeOfEmpty()
    ensures FontSizeOf("") == DefaultFontSize
  {
  }
}
