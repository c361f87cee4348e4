/**
 * Pixel buffers as PIL handles them: an image is a grid of RGBA pixels,
 * `Image.new` fills a canvas with one colour, and `paste` copies an image
 * onto a canvas at an offset, clipped to the canvas.
 */
module Raster {

  datatype Pixel = Rgba(r: int, g: int, b: int, a: int)

  /** Raw pixel data, stored as `width` columns of `height` pixels each. */
  datatype Bitmap = Bitmap(width: nat, height: nat, cols: seq<seq<Pixel>>)

  predicate WellFormed(b: Bitmap)
  {
    |b.cols| == b.width && forall i :: 0 <= i < |b.cols| ==> |b.cols[i]| == b.height
  }

  /** A decoded image: its pixel data always matches its size. */
  type Image = b: Bitmap | WellFormed(b) witness Bitmap(0, 0, [])

  /** Pixel (i, j) lies on the image and holds p. */
  predicate PixelIs(im: Image, i: int, j: int, p: Pixel)
  {
    0 <= i < im.width && 0 <= j < im.height && im.cols[i][j] == p
  }

  /** An image pasted with its top-left corner at pixel (ox, oy). */
  datatype Layer = Layer(ox: nat, oy: nat, im: Image)

  predicate Covers(l: Layer, i: int, j: int)
  {
    l.ox <= i < l.ox + l.im.width && l.oy <= j < l.oy + l.im.height
  }

  /** The pixel a layer puts at canvas position (i, j). */
  function LayerPixel(l: Layer, i: int, j: int): Pixel
    requires Covers(l, i, j)
  {
    l.im.cols[i - l.ox][j - l.oy]
  }

  /**
   * Pixel (i, j) of a canvas filled with `bg` onto which `layers` were
   * pasted in order: the last layer that covers the position decides it.
   */
  function Composite(layers: seq<Layer>, bg: Pixel, i: int, j: int): Pixel
    decreases |layers|
  {
    if |layers| == 0 then bg
    else
      var l := layers[|layers| - 1];
      if Covers(l, i, j) then LayerPixel(l, i, j) else Composite(layers[..|layers| - 1], bg, i, j)
  }

  /** The w-by-h image that pasting `layers` onto a `bg` canvas produces. */
  function Render(w: nat, h: nat, layers: seq<Layer>, bg: Pixel): Image
  {
    Bitmap(w, h, seq(w, i requires 0 <= i < w => seq(h, j requires 0 <= j < h => Composite(layers, bg, i, j))))
  }

  /** A position no layer covers keeps the background. */
  lemma {:induction false} CompositeUncovered(layers: seq<Layer>, bg: Pixel, i: int, j: int)
    requires forall k :: 0 <= k < |layers| ==> !Covers(layers[k], i, j)
    ensures Composite(layers, bg, i, j) == bg
    decreases |layers|
  {
    if |layers| > 0 {
      CompositeUncovered(layers[..|layers| - 1], bg, i, j);
    }
  }

  /** A position shows the pixel of the last layer that covers it. */
  lemma {:induction false} CompositeTopmost(layers: seq<Layer>, bg: Pixel, i: int, j: int, k: nat)
    requires k < |layers| && Covers(layers[k], i, j)
    requires forall m :: k < m < |layers| ==> !Covers(layers[m], i, j)
    ensures Composite(layers, bg, i, j) == LayerPixel(layers[k], i, j)
    decreases |layers|
  {
    if k < |layers| - 1 {
      CompositeTopmost(layers[..|layers| - 1], bg, i, j, k);
    }
  }

  /** Over two layers, a position shows the second where it covers it, else the first where that covers it, else the background. */
  lemma CompositeTwo(l1: Layer, l2: Layer, bg: Pixel, i: int, j: int)
    ensures Composite([l1, l2], bg, i, j) ==
      if Covers(l2, i, j) then LayerPixel(l2, i, j) else if Covers(l1, i, j) then LayerPixel(l1, i, j) else bg
  {
    assert [l1, l2][..1] == [l1] && [l1][..0] == [];
    assert Composite([l1], bg, i, j) == if Covers(l1, i, j) then LayerPixel(l1, i, j) else Composite([], bg, i, j);
  }

  /** Two images with the same size and the same pixels are the same image. */
  lemma SameImage(a: Image, b: Image)
    requires a.width == b.width && a.height == b.height
    requires forall i, j :: 0 <= i < a.width && 0 <= j < a.height ==> a.cols[i][j] == b.cols[i][j]
    ensures a == b
  {
    forall i | 0 <= i < a.width
      ensures a.cols[i] == b.cols[i]
    {
    }
  }

  /** `Image.new(mode, (w, h), bg)`. */
  method NewCanvas(w: nat, h: nat, bg: Pixel) returns (canvas: array2<Pixel>)
    ensures fresh(canvas)
    ensures canvas.Length0 == w && canvas.Length1 == h
    ensures forall i, j :: 0 <= i < w && 0 <= j < h ==> canvas[i, j] == bg
  {
    canvas := new Pixel[w, h]((i, j) => bg);
  }

  /** `canvas.paste(l.im, (l.ox, l.oy))`: the covered part of the canvas gets the layer's pixels. */
  method Paste(canvas: array2<Pixel>, l: Layer)
    modifies canvas
    ensures forall i, j :: 0 <= i < canvas.Length0 && 0 <= j < canvas.Length1 ==>
      canvas[i, j] == if Covers(l, i, j) then LayerPixel(l, i, j) else old(canvas[i, j])
  {
    var iEnd := if l.ox + l.im.width < canvas.Length0 then l.ox + l.im.width else canvas.Length0;
    var jEnd := if l.oy + l.im.height < canvas.Length1 then l.oy + l.im.height else canvas.Length1;
    var i := l.ox;
    while i < iEnd
      invariant l.ox <= i && (l.ox <= iEnd ==> i <= iEnd)
      invariant forall a, b :: 0 <= a < canvas.Length0 && 0 <= b < canvas.Length1 ==>
        canvas[a, b] == if Covers(l, a, b) && a < i then LayerPixel(l, a, b) else old(canvas[a, b])
    {
      var j := l.oy;
      while j < jEnd
        invariant l.oy <= j && (l.oy <= jEnd ==> j <= jEnd)
        invariant forall a, b :: 0 <= a < canvas.Length0 && 0 <= b < canvas.Length1 ==>
          canvas[a, b] == if Covers(l, a, b) && (a < i || (a == i && b < j)) then LayerPixel(l, a, b) else old(canvas[a, b])
      {
        canvas[i, j] := l.im.cols[i - l.ox][j - l.oy];
        j := j + 1;
      }
      i := i + 1;
    }
  }

  /** The image a canvas holds once it is saved: its pixels, frozen. */
  method Freeze(canvas: array2<Pixel>) returns (im: Image)
    ensures im.width == canvas.Length0 && im.height == canvas.Length1
    ensures forall i, j :: 0 <= i < im.width && 0 <= j < im.height ==> im.cols[i][j] == canvas[i, j]
  {
    var w, h := canvas.Length0, canvas.Length1;
    var cols := seq(w, i requires 0 <= i < w reads canvas => seq(h, j requires 0 <= j < h reads canvas => canvas[i, j]));
    im := Bitmap(w, h, cols);
  }
}
