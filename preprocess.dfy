/**
 * Image preprocessing before OCR: the page image is drawn on a canvas twice
 * its size, and every pixel of the canvas's RGBA buffer is replaced by its
 * luminance in the three colour channels, keeping alpha.
 */
module Preprocess {
  import opened Wrappers

  /** One element of a canvas `Uint8ClampedArray`. */
  newtype byte = x: int | 0 <= x < 256

  /** The factor the canvas enlarges the image by, in each dimension. */
  const Scale: nat := 2

  /** Width and height in pixels. */
  datatype Size = Size(width: nat, height: nat)

  /** The preprocessing canvas for an image: exactly twice as wide and twice as high. */
  function CanvasSize(img: Size): (c: Size)
    ensures c.width == 2 * img.width && c.height == 2 * img.height
  {
    Size(Scale * img.width, Scale * img.height)
  }

  /** The length of the RGBA buffer `getImageData` returns for a whole canvas of size `c`. */
  function BufferLength(c: Size): nat
  {
    4 * (c.width * c.height)
  }

  /** The canvas buffer holds whole pixels, four times as many as the image has. */
  lemma CanvasBuffer(img: Size)
    ensures BufferLength(CanvasSize(img)) % 4 == 0
    ensures BufferLength(CanvasSize(img)) == 4 * (4 * (img.width * img.height))
  {
  }

  function Min3(r: byte, g: byte, b: byte): byte
  {
    if r <= g && r <= b then r else if g <= b then g else b
  }

  function Max3(r: byte, g: byte, b: byte): byte
  {
    if r >= g && r >= b then r else if g >= b then g else b
  }

  /**
   * The gray level stored for a pixel: `0.299 R + 0.587 G + 0.114 B`, computed
   * exactly in thousandths and rounded to the nearest integer, ties to even, as a
   * `Uint8ClampedArray` store rounds. It lies between the pixel's darkest and
   * brightest channel.
   */
  function Luma(r: byte, g: byte, b: byte): (y: byte)
    ensures 1000 * y as int - 500 <= 299 * r as int + 587 * g as int + 114 * b as int <= 1000 * y as int + 500
    ensures Min3(r, g, b) <= y <= Max3(r, g, b)
  {
    var lo, hi := Min3(r, g, b) as int, Max3(r, g, b) as int;
    var w := 299 * r as int + 587 * g as int + 114 * b as int;
    assert 1000 * lo <= w <= 1000 * hi;
    var q, rem := w / 1000, w % 1000;
    assert w == 1000 * q + rem && 0 <= rem < 1000;
    assert lo <= q <= hi;
    assert q == hi ==> rem == 0;
    var rounded := if rem > 500 || (rem == 500 && q % 2 == 1) then q + 1 else q;
    rounded as byte
  }

  /** A pixel that is already gray keeps its level. */
  lemma LumaOfGray(v: byte)
    ensures Luma(v, v, v) == v
  {
  }

  /** Channel `c` (0 red, 1 green, 2 blue, 3 alpha) of pixel `p` in an RGBA buffer. */
  function Channel(s: seq<byte>, p: nat, c: nat): byte
    requires c < 4 && 4 * p + c < |s|
  {
    s[4 * p + c]
  }

  /** Output bytes `g0..g3` are the input pixel `c0..c3` turned gray: its luminance in the three colour channels, the same alpha. */
  predicate GrayBytes(c0: byte, c1: byte, c2: byte, c3: byte, g0: byte, g1: byte, g2: byte, g3: byte)
  {
    var y := Luma(c0, c1, c2);
    g0 == y && g1 == y && g2 == y && g3 == c3
  }

  /** Pixel `p` of `r` is pixel `p` of `s` turned gray. */
  predicate GrayPixel(s: seq<byte>, r: seq<byte>, p: nat)
    requires 4 * p + 4 <= |s| && |r| == |s|
  {
    GrayBytes(Channel(s, p, 0), Channel(s, p, 1), Channel(s, p, 2), Channel(s, p, 3),
              Channel(r, p, 0), Channel(r, p, 1), Channel(r, p, 2), Channel(r, p, 3))
  }

  /** `r` is the buffer `s` with every pixel turned gray. */
  ghost predicate IsGrayscaleOf(r: seq<byte>, s: seq<byte>)
  {
    |r| == |s| && forall p: nat :: 4 * p + 4 <= |s| ==> GrayPixel(s, r, p)
  }

  /** Whether a pixel is gray depends only on its own four bytes. */
  lemma GrayPixelOwnBytes(s: seq<byte>, r1: seq<byte>, r2: seq<byte>, p: nat)
    requires 4 * p + 4 <= |s| && |r1| == |s| && |r2| == |s|
    requires GrayPixel(s, r1, p)
    requires forall c :: 0 <= c < 4 ==> Channel(r1, p, c) == Channel(r2, p, c)
    ensures GrayPixel(s, r2, p)
  {
  }

  /** Pixel `p` of a buffer is pixel `p - 1` of the buffer without its first pixel. */
  lemma GrayPixelAfterFirst(s: seq<byte>, head: seq<byte>, rest: seq<byte>, p: nat)
    requires |s| >= 4 && |head| == 4 && |rest| == |s| - 4
    requires 0 < p && 4 * p + 4 <= |s|
    requires GrayPixel(s[4..], rest, p - 1)
    ensures GrayPixel(s, head + rest, p)
  {
    var r := head + rest;
    forall c | 0 <= c < 4
      ensures Channel(s, p, c) == Channel(s[4..], p - 1, c) && Channel(r, p, c) == Channel(rest, p - 1, c)
    {
      assert 4 * (p - 1) + c == 4 * p + c - 4;
    }
    assert Channel(s, p, 0) == Channel(s[4..], p - 1, 0) && Channel(s, p, 1) == Channel(s[4..], p - 1, 1);
    assert Channel(s, p, 2) == Channel(s[4..], p - 1, 2) && Channel(s, p, 3) == Channel(s[4..], p - 1, 3);
    assert Channel(r, p, 0) == Channel(rest, p - 1, 0) && Channel(r, p, 1) == Channel(rest, p - 1, 1);
    assert Channel(r, p, 2) == Channel(rest, p - 1, 2) && Channel(r, p, 3) == Channel(rest, p - 1, 3);
  }

  /** The grayscale pass over an RGBA buffer, one pixel of four bytes at a time. */
  function Grayscale(s: seq<byte>): (r: seq<byte>)
    requires |s| % 4 == 0
    ensures IsGrayscaleOf(r, s)
    decreases |s|
  {
    if s == [] then []
    else
      var y := Luma(s[0], s[1], s[2]);
      var rest := Grayscale(s[4..]);
      var r := [y, y, y, s[3]] + rest;
      assert IsGrayscaleOf(r, s) by {
        forall p: nat | 4 * p + 4 <= |s|
          ensures GrayPixel(s, r, p)
        {
          if p > 0 {
            assert GrayPixel(s[4..], rest, p - 1);
            GrayPixelAfterFirst(s, [y, y, y, s[3]], rest, p);
          }
        }
      }
      r
  }

  /**
   * Stated on byte offsets as the loop walks them: at every offset `i` that
   * starts a pixel, the three colour bytes are equal afterwards and the alpha
   * byte is the one that was there.
   */
  lemma GrayscaleAtOffset(s: seq<byte>, i: int)
    requires |s| % 4 == 0 && 0 <= i < |s| && i % 4 == 0
    ensures |Grayscale(s)| == |s|
    ensures Grayscale(s)[i] == Grayscale(s)[i + 1] == Grayscale(s)[i + 2] == Luma(s[i], s[i + 1], s[i + 2])
    ensures Grayscale(s)[i + 3] == s[i + 3]
  {
    var p: nat := i / 4;
    assert i == 4 * p;
    var n := |s| / 4;
    assert |s| == 4 * n;
    assert p < n;
    GrayscaleAtPixel(s, p);
  }

  /** The same, stated on pixel indices. */
  lemma GrayscaleAtPixel(s: seq<byte>, p: nat)
    requires |s| % 4 == 0 && 4 * p + 4 <= |s|
    ensures |Grayscale(s)| == |s|
    ensures var g, i := Grayscale(s), 4 * p;
      g[i] == g[i + 1] == g[i + 2] == Luma(s[i], s[i + 1], s[i + 2]) && g[i + 3] == s[i + 3]
  {
    var g := Grayscale(s);
    assert GrayPixel(s, g, p);
  }

  /** Two buffers of whole pixels that agree on every channel of every pixel are equal. */
  lemma SameChannelsSameBuffer(a: seq<byte>, b: seq<byte>)
    requires |a| == |b| && |a| % 4 == 0
    requires forall p: nat, c: nat :: c < 4 && 4 * p + 4 <= |a| ==> Channel(a, p, c) == Channel(b, p, c)
    ensures a == b
  {
    forall k | 0 <= k < |a|
      ensures a[k] == b[k]
    {
      var p, c := k / 4, k % 4;
      assert k == 4 * p + c;
      assert Channel(a, p, c) == Channel(b, p, c);
    }
  }

  /** Only one buffer is the gray version of `s`: the one `Grayscale` computes. */
  lemma GrayscaleUnique(r: seq<byte>, s: seq<byte>)
    requires |s| % 4 == 0 && IsGrayscaleOf(r, s)
    ensures r == Grayscale(s)
  {
    var g := Grayscale(s);
    forall p: nat, c: nat | c < 4 && 4 * p + 4 <= |r|
      ensures Channel(r, p, c) == Channel(g, p, c)
    {
      assert GrayPixel(s, r, p) && GrayPixel(s, g, p);
    }
    SameChannelsSameBuffer(r, g);
  }

  /** Running the pass on its own output changes nothing. */
  lemma GrayscaleIdempotent(s: seq<byte>)
    requires |s| % 4 == 0
    ensures Grayscale(Grayscale(s)) == Grayscale(s)
  {
    var g := Grayscale(s);
    forall p: nat | 4 * p + 4 <= |g|
      ensures GrayPixel(g, g, p)
    {
      assert GrayPixel(s, g, p);
      LumaOfGray(Channel(g, p, 0));
    }
    GrayscaleUnique(g, g);
  }

  /** The grayscale loop of the preprocessing step, in place over the canvas buffer. */
  method GrayscaleInPlace(data: array<byte>)
    requires data.Length % 4 == 0
    modifies data
    ensures data[..] == Grayscale(old(data[..]))
  {
    ghost var original := data[..];
    ghost var pixels := data.Length / 4;
    var i := 0;
    ghost var p: nat := 0;
    while i < data.Length
      invariant data.Length == 4 * pixels
      invariant i == 4 * p && p <= pixels
      invariant forall q: nat :: q < p ==> GrayPixel(original, data[..], q)
      invariant forall k :: i <= k < data.Length ==> data[k] == original[k]
    {
      ghost var before := data[..];
      var gray := Luma(data[i], data[i + 1], data[i + 2]);
      data[i], data[i + 1], data[i + 2] := gray, gray, gray;
      forall q: nat | q < p
        ensures GrayPixel(original, data[..], q)
      {
        forall c | 0 <= c < 4
          ensures Channel(before, q, c) == Channel(data[..], q, c)
        {
          assert 4 * q + c < i;
        }
        GrayPixelOwnBytes(original, before, data[..], q);
      }
      assert GrayPixel(original, data[..], p);
      i, p := i + 4, p + 1;
    }
    GrayscaleUnique(data[..], original);
  }

  /** The PNG the preprocessing step hands to OCR: the canvas size and its pixels. */
  datatype ProcessedImage = ProcessedImage(size: Size, pixels: seq<byte>)

  /**
   * Whether the canvas steps of `preprocessImage` get as far as `toBlob`'s
   * callback with a blob in hand. `decoded` is the image's size once it has
   * loaded (`None`: it never loads, so `onload` never runs), `hasContext` says
   * whether the canvas yields a 2D context, and `blobOk` whether `toBlob`
   * produces a blob. A canvas with no pixels makes `getImageData` throw inside
   * the `onload` callback.
   */
  predicate PreprocessSucceeds(decoded: Option<Size>, hasContext: bool, blobOk: bool)
  {
    && decoded.Some?
    && hasContext
    && CanvasSize(decoded.value).width > 0 && CanvasSize(decoded.value).height > 0
    && blobOk
  }

  /**
   * How the promise of `preprocessImage` ends, given the pixels `drawn` that
   * `drawImage` leaves on the canvas. It fulfils with the gray canvas when every
   * step succeeds, and otherwise stays pending forever: no step rejects it.
   */
  function PreprocessOutcome(decoded: Option<Size>, hasContext: bool, drawn: seq<byte>, blobOk: bool): (p: Promise<ProcessedImage>)
    requires decoded.Some? ==> |drawn| == BufferLength(CanvasSize(decoded.value))
    ensures !p.Rejected?
    ensures p.Fulfilled? <==> PreprocessSucceeds(decoded, hasContext, blobOk)
    ensures p.Fulfilled? ==>
      && p.value.size == CanvasSize(decoded.value)
      && IsGrayscaleOf(p.value.pixels, drawn)
  {
    if PreprocessSucceeds(decoded, hasContext, blobOk) then
      CanvasBuffer(decoded.value);
      Fulfilled(ProcessedImage(CanvasSize(decoded.value), Grayscale(drawn)))
    else
      Pending
  }

  /**
   * `preprocessImage` from the image load on: the canvas is sized, and when a
   * 2D context exists and the canvas has pixels, the drawn buffer is turned gray
   * in place. The buffer is untouched when the step stops before the loop.
   */
  method PreprocessImage(decoded: Option<Size>, hasContext: bool, drawn: array<byte>, blobOk: bool)
    returns (p: Promise<ProcessedImage>)
    requires decoded.Some? ==> drawn.Length == BufferLength(CanvasSize(decoded.value))
    modifies drawn
    ensures p == PreprocessOutcome(decoded, hasContext, old(drawn[..]), blobOk)
    ensures drawn[..] ==
      if decoded.Some? && hasContext && drawn.Length > 0 then Grayscale(old(drawn[..])) else old(drawn[..])
  {
    if decoded.None? {
      return Pending;
    }
    var canvas := CanvasSize(decoded.value);
    if !hasContext {
      return Pending;
    }
    if canvas.width == 0 || canvas.height == 0 {
      return Pending;
    }
    CanvasBuffer(decoded.value);
    GrayscaleInPlace(drawn);
    if !blobOk {
      return Pending;
    }
    p := Fulfilled(ProcessedImage(canvas, drawn[..]));
  }

  /**
   * `preprocessImage` as its caller evidently expects it: each failure rejects
   * the promise instead of leaving it pending; a success is unchanged.
   */
  function PreprocessOutcomeFixed(decoded: Option<Size>, hasContext: bool, drawn: seq<byte>, blobOk: bool): (p: Promise<ProcessedImage>)
    requires decoded.Some? ==> |drawn| == BufferLength(CanvasSize(decoded.value))
    ensures !p.Pending?
    ensures p.Fulfilled? <==> PreprocessSucceeds(decoded, hasContext, blobOk)
    ensures p.Fulfilled? ==> p == PreprocessOutcome(decoded, hasContext, drawn, blobOk)
  {
    var p := PreprocessOutcome(decoded, hasContext, drawn, blobOk);
    if p.Pending? then Rejected else p
  }
}
