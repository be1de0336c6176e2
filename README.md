# Comic typesetter page: a Dafny model

This project models the logic of the single page of a comic-translation tool
(`app/routes/_index.tsx`). The page takes an uploaded page image, preprocesses
it (draws it at twice its size and turns it gray), hands it to an OCR worker,
and turns the recognized words into editable annotations. Each annotation is
shown as an absolutely positioned overlay at the word's bounding box, with an
editable translation, font size and font family.

The modules follow the parts of that file:

- `Wrappers` (`wrappers.dfy`): `Option`, and `Promise`, which says how an awaited
  promise ends: fulfilled, rejected, or pending forever.
- `Annotation` (`annotation.dfy`): the `OCRWord` record, how the OCR word list
  becomes annotations, and the overlay geometry.
- `JsParseInt` (`js_parse_int.dfy`): ECMAScript's `parseInt` without a radix, as
  the font-size input uses it. It skips leading white space, reads an optional
  sign, switches to hexadecimal after `0x`, and reads the longest run of digits.
  `NaN` is `None`.
- `Editing` (`editing.dfy`): `updateWord` as a value-level table update, and the
  `parseInt(v) || 16` font-size coercion.
- `Preprocess` (`preprocess.dfy`): the 2x canvas, the luminance of a pixel, the
  in-place grayscale loop over the RGBA buffer, and how the `preprocessImage`
  promise ends.
- `Page` (`page.dfy`): the component's state as the class `IndexPage`. It has
  the upload handler `HandleFileChange`, `UpdateWord` and the three overlay
  input handlers. `AfterFileChange` states the upload handler's effect as a
  function.

External effects are parameters:

- the OCR worker's result (`ocr: Promise<seq<RecognizedWord>>`);
- the object URL of the picked file;
- whether the image decodes, with its size;
- whether the canvas has a 2D context;
- the pixels `drawImage` leaves on the canvas;
- whether `toBlob` yields a blob;
- the outcome of preprocessing as the upload handler awaits it.

Three behaviours of the code a reader may not expect:

- The gray value weights R, G and B by 0.299, 0.587 and 0.114 rather than
  averaging them (`Luma`).
- A numeric font size is stored as `parseInt`'s result, so `12.5` gives 12 and
  `0` gives 16 (`FontSizeOfNumeral`, `ParseIntOfFraction`).
- `loading` is cleared only when the upload handler reaches `finally`. A failed
  preprocessing step never settles its promise, so that run of the handler
  never gets there (see Findings).

## Model

| member | source | states |
|---|---|---|
| `Annotation.Annotate` | app/routes/_index.tsx:112-118 | one annotation per OCR word, same length and order; each has `translated == text`, the word's bbox, font size 16 and font family "Arial" |
| `Annotation.SourcesOfAnnotate` | app/routes/_index.tsx:112-118 | the OCR word list can be read back from the annotations (text and bbox of each, in order) |
| `Annotation.AnnotateCharacterized` | app/routes/_index.tsx:112-118 | a list equals `Annotate(ws)` if and only if it has the length of `ws` and entry `i` is an unedited annotation built from `ws[i]` |
| `Annotation.Overlay` | app/routes/_index.tsx:171-178 | the overlay starts at `(x0, y0)`; `left + width == x1` and `top + height == y1`; width (height) is non-negative iff `x0 <= x1` (`y0 <= y1`); the annotation's font size and family are used |
| `Annotation.OverlayCoversBox` | app/routes/_index.tsx:173-176 | the box an overlay covers is exactly the annotation's bbox |
| `JsParseInt.TrimStartRemovesLeadingWhiteSpace` | app/routes/_index.tsx:194 | `parseInt`'s first step drops exactly the longest leading run of ECMAScript white space and line terminators |
| `JsParseInt.ParseInt` | app/routes/_index.tsx:194 | `parseInt(e.target.value)`: `NaN` exactly when no digit of the selected radix stands where the first digit is expected; negative only after a minus sign |
| `JsParseInt.DigitPrefix` | app/routes/_index.tsx:194 | the digits read are the longest prefix made of digits of the radix |
| `JsParseInt.LeadingDigits` | app/routes/_index.tsx:194 | reading digits gives `NaN` exactly when the text does not start with a digit of the radix |
| `JsParseInt.ParseIntOfNumeral` | app/routes/_index.tsx:194 | `parseInt` returns any integer from its decimal numeral, also when a non-digit such as `.5`, `e3` or `px` follows, unless `0` is followed by `x` |
| `JsParseInt.ParseIntOfEmpty` | app/routes/_index.tsx:194 | an empty input parses to `NaN` |
| `JsParseInt.ParseIntSkipsWhiteSpace` | app/routes/_index.tsx:194 | leading spaces are skipped: `"  24"` parses to 24 |
| `JsParseInt.ParseIntOfFraction` | app/routes/_index.tsx:194 | a fraction is cut off: `"12.5"` parses to 12 |
| `JsParseInt.ParseIntOfNegativeZero` | app/routes/_index.tsx:194 | `"-0"` parses to zero, which `\|\| 16` treats as falsy |
| `JsParseInt.ParseIntOfHex` | app/routes/_index.tsx:194 | without a radix, `"0x1A"` parses as hexadecimal, to 26 |
| `Editing.SetField` | app/routes/_index.tsx:135 | setting `w[key] = v` makes field `key` equal to `v` and leaves every other field as it was |
| `Editing.Updated` | app/routes/_index.tsx:130-137 | `updateWord(idx, key, v)` gives a list of the same length in which entry `idx` has `key == v` and its other fields unchanged, and every other entry is unchanged; it needs `0 <= idx < length`, since otherwise the source dereferences `undefined` |
| `Editing.UpdatedCharacterized` | app/routes/_index.tsx:130-137 | those properties determine the updated list: a list has them if and only if it is the result |
| `Editing.UpdateWithCurrentValue` | app/routes/_index.tsx:130-137 | writing a field's current value leaves the list as it was |
| `Editing.LastUpdateWins` | app/routes/_index.tsx:130-137 | of two writes to the same field of the same entry, only the later one is visible |
| `Editing.UpdatesCommute` | app/routes/_index.tsx:130-137 | writes to different entries, or to different fields of one entry, commute |
| `Editing.CoerceFontSize` | app/routes/_index.tsx:194 | `parsed \|\| 16` is the parsed integer when there is one and it is nonzero, and 16 for `NaN` or zero; it is never zero |
| `Editing.FontSizeOf` | app/routes/_index.tsx:194 | `parseInt(text) \|\| 16`: never zero; 16 when the text does not parse; the parsed integer when it parses to a nonzero value |
| `Editing.FontSizeOfNumeral` | app/routes/_index.tsx:194 | typing the numeral of `n`, with any non-digit after it, stores `n`, or stores 16 when `n` is 0 |
| `Editing.FontSizeOfEmpty` | app/routes/_index.tsx:194 | clearing the size field stores 16 |
| `Preprocess.CanvasSize` | app/routes/_index.tsx:53-55 | the preprocessing canvas is exactly twice the image's width and height |
| `Preprocess.CanvasBuffer` | app/routes/_index.tsx:53-66 | the canvas's RGBA buffer holds whole pixels (its length is a multiple of 4), four times as many as the image has |
| `Preprocess.Luma` | app/routes/_index.tsx:68-69 | the gray level, 0.299 R + 0.587 G + 0.114 B rounded as a clamped byte store rounds, is within half a unit of the exact weighted sum and lies between the pixel's smallest and largest channel |
| `Preprocess.LumaOfGray` | app/routes/_index.tsx:68-69 | a pixel whose three channels are already equal keeps that level |
| `Preprocess.Grayscale` | app/routes/_index.tsx:67-70 | in the result, pixel by pixel, the three colour channels hold the pixel's luminance and the alpha is the original's; the length is unchanged |
| `Preprocess.GrayscaleAtOffset` | app/routes/_index.tsx:67-70 | at each offset `i` the loop visits (a multiple of 4 below the length), `data[i] == data[i+1] == data[i+2]` afterwards, and `data[i+3]` is unchanged |
| `Preprocess.GrayscaleUnique` | app/routes/_index.tsx:67-70 | exactly one buffer is the gray version of a given buffer |
| `Preprocess.GrayscaleIdempotent` | app/routes/_index.tsx:67-70 | running the grayscale pass on its own output changes nothing |
| `Preprocess.GrayscaleInPlace` | app/routes/_index.tsx:67-70 | the stride-4 loop leaves the array equal to `Grayscale` of its old contents |
| `Preprocess.PreprocessOutcome` | app/routes/_index.tsx:47-85 | the promise never rejects; it fulfils exactly when the image loads, the 2D context exists, the canvas has pixels and `toBlob` yields a blob, and then it holds the 2x canvas size and gray pixels; otherwise it stays pending |
| `Preprocess.PreprocessImage` | app/routes/_index.tsx:50-81 | the load callback, with the buffer turned gray in place when a context exists and the canvas has pixels, and left untouched otherwise; its result is `PreprocessOutcome` |
| `Preprocess.PreprocessOutcomeFixed` | app/routes/_index.tsx:47-85 | the corrected step never stays pending; it fulfils exactly when the original would, with the same image |
| `Page.FirstFile` | app/routes/_index.tsx:89 | `files?.[0]`: a file exactly when the list exists and is non-empty, and then its first element |
| `Page.AfterFileChange` | app/routes/_index.tsx:88-128 | with no file or no worker, nothing changes; otherwise the image URL is shown, `loading` is false exactly when the handler finishes, it finishes unless an await stays pending, and the words are replaced by `Annotate` of the OCR words only when preprocessing and OCR both succeed |
| `Page.FailedPreprocessKeepsLoading` | app/routes/_index.tsx:47-85 | each failing preprocessing input leaves the handler unfinished, `loading` set and the words kept |
| `Page.UndecodableFileKeepsLoading` | app/routes/_index.tsx:50 | a picked file that never loads as an image leaves that run of the handler unfinished, with `loading` set until a later upload finishes |
| `Page.FixedPreprocessAlwaysClearsLoading` | app/routes/_index.tsx:105-126 | with the corrected preprocessing, every upload past the guards ends with `loading` false, provided OCR settles |
| `Page.OverlayOffPreview` | app/routes/_index.tsx:173-176 | as written, a word in the right half of the 2x canvas gets an overlay starting at or beyond the right edge of the 1x preview |
| `Page.OverlayOffPreviewExample` | app/routes/_index.tsx:173-176 | a 100-pixel-wide upload with a word at canvas x = 150 gets an overlay starting at 150, past the preview |
| `Page.PreviewOverlay` | app/routes/_index.tsx:171-178 | the corrected overlay: each edge is the canvas box edge divided by the scale, to within one preview pixel; fonts as in the annotation |
| `Page.PreviewOverlayOnPreview` | app/routes/_index.tsx:169-176 | every word box inside the canvas gets a corrected overlay that lies inside the preview image |
| `Page.IndexPage.constructor` | app/routes/_index.tsx:17-20 | initial state: no image, no words, not loading, no worker |
| `Page.IndexPage.WorkerCreated` | app/routes/_index.tsx:28-29 | once the worker resolves it is ready, and nothing else changes |
| `Page.IndexPage.HandleFileChange` | app/routes/_index.tsx:88-128 | the handler's guards, `setLoading(true)`, preview, `try`/`catch`/`finally`, stepwise; its new state and whether it finishes are `AfterFileChange` |
| `Page.IndexPage.UpdateWord` | app/routes/_index.tsx:130-138 | the annotation list becomes `Updated(old list, idx, key, value)`; the other state is unchanged |
| `Page.IndexPage.OnTranslatedChange` | app/routes/_index.tsx:187 | the translation input writes the typed text into `translated` of that entry only |
| `Page.IndexPage.OnFontSizeChange` | app/routes/_index.tsx:194 | the size input writes `parseInt(text) \|\| 16` into `fontSize` of that entry only; the stored size is nonzero |
| `Page.IndexPage.OnFontFamilyChange` | app/routes/_index.tsx:200 | the family input writes the typed text into `fontFamily` of that entry only |

## Left out

- Creating and terminating the tesseract.js worker (lines 22-43), and `worker.recognize` (line 109), are library calls. Recognition is the parameter `ocr`, and readiness is `workerReady`. A failed worker start only logs, so it is the absence of a `WorkerCreated` call.
- The html2canvas export (lines 140-160) and the export button (line 210) are DOM and download I/O.
- Several browser canvas APIs in preprocessing (lines 48-66, 71-84) are left out: image decoding, `drawImage` scaling, `getImageData`/`putImageData`, `createObjectURL` and PNG encoding by `toBlob`. They enter as parameters: the decoded size, the drawn pixels, the URL and a blob flag. `ProcessedImage` holds raw pixels, not PNG bytes.
- Preprocess.Luma: it does not model the floating-point product of line 68. It is the exact weighted sum in thousandths, rounded half to even as a clamped byte store rounds. Binary floating-point error can move a value sitting exactly on a .5 tie.
- Preprocess.GrayscaleInPlace: it requires a buffer length that is a multiple of 4. The canvas always gives one (`CanvasBuffer`). The source loop's reads past the end of a ragged buffer are not modelled.
- Editing.Updated: value semantics. The source copies the list shallowly (line 133) and then writes into the record it shares with the old list (line 135). So the previous state's record changes too. That aliasing is not modelled.
- Editing.Updated: it requires the value to have the field's type (`Fits`). The source takes `value: any` under `@ts-ignore`. Every caller (lines 187, 194, 200) passes the right type, so storing a wrongly typed value is not modelled.
- JsParseInt: numbers are exact integers. JavaScript loses precision above 2^53, and parsing with an explicit radix is not modelled.
- Bounding boxes and font sizes are integers, as tesseract.js reports them and as `parseInt` yields them.
- JSX rendering (lines 162-216) is left out, apart from the overlay geometry and the three input handlers. So are the constant style entries (position, colour, background, padding) and the console logging.
- React's batching of state updates, and the race between overlapping uploads (last writer wins), are asynchronous effects. `HandleFileChange` runs one upload to its end or to the await that never resumes.
- The object URL of the preview is never revoked. That is a leak with no effect on state.
- `app/routes/tes.tsx` is a fixed-URL fetch plus a library call, with no logic of its own.

## Findings

| source | as written | input that shows it | evidently intended | confidence | as-written member | corrected member |
|---|---|---|---|---|---|---|
| app/routes/_index.tsx:47-85 | `preprocessImage` resolves only on success. It sets no `onerror`. It returns without settling when there is no 2D context, and when `toBlob` gives no blob. A zero-size canvas makes `getImageData` throw inside the load callback. So `handleFileChange` never reaches `finally`, and "Running OCR..." stays on until a later upload finishes | picking a file that is not an image, for example `notes.txt` through the file dialog's "all files" filter | each failure rejects the promise, so the `catch`/`finally` of lines 122-126 clears `loading` | medium, not executed | `Page.FailedPreprocessKeepsLoading`, `Page.UndecodableFileKeepsLoading` | `Preprocess.PreprocessOutcomeFixed`, with `Page.FixedPreprocessAlwaysClearsLoading` |
| app/routes/_index.tsx:173-176 | The overlays take the OCR boxes as they are. Those boxes are in pixels of the 2x canvas that OCR was given (lines 53-55, 106, 109). The overlays sit over the preview `<img>`, which shows the uploaded file at its own size (lines 101-102, 169). So every overlay lands at twice the word's offset and size | a 100-pixel-wide upload with a word at x = 150..190 on the canvas (x = 75..95 on the preview): its overlay starts at 150, past the preview's right edge | overlays in preview pixels, the canvas box divided by the scale of 2 | medium, not executed | `Page.OverlayOffPreview`, `Page.OverlayOffPreviewExample` | `Page.PreviewOverlay`, with `Page.PreviewOverlayOnPreview` |

The upload handler takes the preprocessing outcome as a parameter, so the same
`HandleFileChange` and `AfterFileChange` work with either definition. The
page's rendering is not modelled, so `Annotation.Overlay` keeps the geometry as
written, and `Page.PreviewOverlay` is its corrected form.
