/**
 * The older image helpers of `utils_imgs.py`: joining two images side by
 * side or one above the other on a black RGB canvas, folding a list of tile
 * files into one image file by repeated joins, and naming the tile files a
 * check goes over.
 */
module Concat {
  import opened Common
  import opened Raster
  import opened Storage

  /** The fill of `Image.new("RGB", size)`: opaque black. */
  const Black := Rgba(0, 0, 0, 255)

  /** A pixel as it lands on an RGB canvas: the colour is kept, the alpha channel dropped. */
  function OnRgb(p: Pixel): Pixel
  {
    Rgba(p.r, p.g, p.b, 255)
  }

  /** An image as `paste` puts it onto an RGB canvas. */
  function ToRgb(im: Image): (r: Image)
    ensures r.width == im.width && r.height == im.height
  {
    Bitmap(im.width, im.height,
      seq(im.width, i requires 0 <= i < im.width => seq(im.height, j requires 0 <= j < im.height => OnRgb(im.cols[i][j]))))
  }

  lemma ToRgbPixel(im: Image, i: int, j: int)
    requires 0 <= i < im.width && 0 <= j < im.height
    ensures ToRgb(im).cols[i][j] == OnRgb(im.cols[i][j])
  {
  }

  // ---------------------------------------------------------------------------
  // get_concat_h, get_concat_v
  // ---------------------------------------------------------------------------

  /**
   * `get_concat_h(im1, im2)`, pixel by pixel: a canvas `im1.width + im2.width`
   * by `im1.height` holding im1 in its first `im1.width` columns and im2 in
   * the rest, cut to im1's height; below a shorter im2 it stays black.
   */
  function ConcatH(im1: Image, im2: Image): (r: Image)
    ensures r.width == im1.width + im2.width && r.height == im1.height
  {
    var w, h := im1.width + im2.width, im1.height;
    var cols := seq(w, i requires 0 <= i < w => seq(h, j requires 0 <= j < h =>
      if i < im1.width then OnRgb(im1.cols[i][j])
      else if j < im2.height then OnRgb(im2.cols[i - im1.width][j])
      else Black));
    assert forall i :: 0 <= i < w ==> |cols[i]| == h;
    Bitmap(w, h, cols)
  }

  /**
   * `get_concat_v(im1, im2)`, pixel by pixel: a canvas `im1.width` by
   * `im1.height + im2.height` holding im1 in its first `im1.height` rows and
   * im2 in the rest, cut to im1's width; beside a narrower im2 it stays black.
   */
  function ConcatV(im1: Image, im2: Image): (r: Image)
    ensures r.width == im1.width && r.height == im1.height + im2.height
  {
    var w, h := im1.width, im1.height + im2.height;
    var cols := seq(w, i requires 0 <= i < w => seq(h, j requires 0 <= j < h =>
      if j < im1.height then OnRgb(im1.cols[i][j])
      else if i < im2.width then OnRgb(im2.cols[i][j - im1.height])
      else Black));
    assert forall i :: 0 <= i < w ==> |cols[i]| == h;
    Bitmap(w, h, cols)
  }

  /** The canvas after pasting two layers in turn onto a fresh canvas of one colour, frozen. */
  method PasteTwo(w: nat, h: nat, l1: Layer, l2: Layer, bg: Pixel) returns (dst: Image)
    ensures dst == Render(w, h, [l1, l2], bg)
  {
    var canvas := NewCanvas(w, h, bg);
    Paste(canvas, l1);
    Paste(canvas, l2);
    dst := Freeze(canvas);
    var expected := Render(w, h, [l1, l2], bg);
    forall i, j | 0 <= i < w && 0 <= j < h
      ensures dst.cols[i][j] == expected.cols[i][j]
    {
      CompositeTwo(l1, l2, bg, i, j);
    }
    SameImage(dst, expected);
  }

  /** Pasting im1 at (0, 0) and im2 at (im1.width, 0) on a black canvas of the joined size gives the side-by-side join. */
  lemma ConcatHIsPasting(im1: Image, im2: Image)
    ensures Render(im1.width + im2.width, im1.height, [Layer(0, 0, ToRgb(im1)), Layer(im1.width, 0, ToRgb(im2))], Black)
      == ConcatH(im1, im2)
  {
    var l1, l2 := Layer(0, 0, ToRgb(im1)), Layer(im1.width, 0, ToRgb(im2));
    var d, c := Render(im1.width + im2.width, im1.height, [l1, l2], Black), ConcatH(im1, im2);
    forall i, j | 0 <= i < d.width && 0 <= j < d.height
      ensures d.cols[i][j] == c.cols[i][j]
    {
      assert d.cols[i][j] == Composite([l1, l2], Black, i, j);
      CompositeTwo(l1, l2, Black, i, j);
      if i < im1.width {
        assert !Covers(l2, i, j) && Covers(l1, i, j);
        ToRgbPixel(im1, i, j);
      } else if j < im2.height {
        assert Covers(l2, i, j);
        ToRgbPixel(im2, i - im1.width, j);
      } else {
        assert !Covers(l2, i, j) && !Covers(l1, i, j);
      }
    }
    SameImage(d, c);
  }

  /** Pasting im1 at (0, 0) and im2 at (0, im1.height) on a black canvas of the joined size gives the stacked join. */
  lemma ConcatVIsPasting(im1: Image, im2: Image)
    ensures Render(im1.width, im1.height + im2.height, [Layer(0, 0, ToRgb(im1)), Layer(0, im1.height, ToRgb(im2))], Black)
      == ConcatV(im1, im2)
  {
    var l1, l2 := Layer(0, 0, ToRgb(im1)), Layer(0, im1.height, ToRgb(im2));
    var d, c := Render(im1.width, im1.height + im2.height, [l1, l2], Black), ConcatV(im1, im2);
    forall i, j | 0 <= i < d.width && 0 <= j < d.height
      ensures d.cols[i][j] == c.cols[i][j]
    {
      assert d.cols[i][j] == Composite([l1, l2], Black, i, j);
      CompositeTwo(l1, l2, Black, i, j);
      if j < im1.height {
        assert !Covers(l2, i, j) && Covers(l1, i, j);
        ToRgbPixel(im1, i, j);
      } else if i < im2.width {
        assert Covers(l2, i, j);
        ToRgbPixel(im2, i, j - im1.height);
      } else {
        assert !Covers(l2, i, j) && !Covers(l1, i, j);
      }
    }
    SameImage(d, c);
  }

  /** `get_concat_h(im1, im2)`: a fresh black RGB canvas, im1 pasted at (0, 0), im2 at (im1.width, 0). */
  method GetConcatH(im1: Image, im2: Image) returns (dst: Image)
    ensures dst == ConcatH(im1, im2)
  {
    dst := PasteTwo(im1.width + im2.width, im1.height, Layer(0, 0, ToRgb(im1)), Layer(im1.width, 0, ToRgb(im2)), Black);
    ConcatHIsPasting(im1, im2);
  }

  /** `get_concat_v(im1, im2)`: a fresh black RGB canvas, im1 pasted at (0, 0), im2 at (0, im1.height). */
  method GetConcatV(im1: Image, im2: Image) returns (dst: Image)
    ensures dst == ConcatV(im1, im2)
  {
    dst := PasteTwo(im1.width, im1.height + im2.height, Layer(0, 0, ToRgb(im1)), Layer(0, im1.height, ToRgb(im2)), Black);
    ConcatVIsPasting(im1, im2);
  }

  // ---------------------------------------------------------------------------
  // merge_array_tiles
  // ---------------------------------------------------------------------------

  /** Why `merge_array_tiles` raises. */
  datatype MergeError =
    | NoTiles      // `x_tiles[0]` on an empty list: `IndexError`
    | MissingKey   // `tiles_files[key]` without the key: `KeyError`
    | MissingFile  // `Image.open` of a path with no file: `FileNotFoundError`

  /** `Image.open(tiles_files[key])` against the files as they are now. */
  function OpenTile(files: map<string, Image>, tilesFiles: map<string, string>, key: string): Result<Image, MergeError>
  {
    if key !in tilesFiles then Err(MissingKey)
    else if tilesFiles[key] !in files then Err(MissingFile)
    else Ok(files[tilesFiles[key]])
  }

  /** What a `merge_array_tiles` call comes to: its result and the files afterwards. */
  datatype Merge = Merge(result: Result<string, MergeError>, files: map<string, Image>)

  /**
   * `merge_array_tiles(x_tiles, tiles_files, out, position)`: the first tile
   * is saved as `out`; each further tile is opened (from the files as they are
   * by then) and joined to the image in `out`, below it for "vertical",
   * beside it for "horizontal", and `out` is overwritten with the join; with
   * any other position nothing more is saved. The first exception ends the call.
   */
  function MergeEffect(files: map<string, Image>, xTiles: seq<string>, tilesFiles: map<string, string>,
                       out: string, position: string): (m: Merge)
    ensures m.result.Ok? ==> m.result.value == out && out in m.files
    decreases |xTiles|
  {
    if |xTiles| == 0 then Merge(Err(NoTiles), files)
    else if |xTiles| == 1 then
      match OpenTile(files, tilesFiles, xTiles[0])
      case Err(e) => Merge(Err(e), files)
      case Ok(im) => Merge(Ok(out), files[out := im])
    else
      var prev := MergeEffect(files, xTiles[..|xTiles| - 1], tilesFiles, out, position);
      if prev.result.Err? then prev else MergeStep(prev.files, tilesFiles, xTiles[|xTiles| - 1], out, position)
  }

  /**
   * One turn of the loop, once `out` holds the image merged so far: the tile
   * is opened, joined to that image as `position` says and the join saved
   * as `out`; with any other position nothing is saved.
   */
  function MergeStep(files: map<string, Image>, tilesFiles: map<string, string>, key: string,
                     out: string, position: string): (m: Merge)
    requires out in files
    ensures m.result.Ok? ==> m.result.value == out && out in m.files
  {
    match OpenTile(files, tilesFiles, key)
    case Err(e) => Merge(Err(e), files)
    case Ok(next) =>
      if position == "vertical" then Merge(Ok(out), files[out := ConcatV(files[out], next)])
      else if position == "horizontal" then Merge(Ok(out), files[out := ConcatH(files[out], next)])
      else Merge(Ok(out), files)
  }

  /** Only the output file is ever written: every other file is left as it was. */
  lemma {:induction false} MergeKeepsOthers(files: map<string, Image>, xTiles: seq<string>, tilesFiles: map<string, string>,
                                            out: string, position: string)
    ensures var m := MergeEffect(files, xTiles, tilesFiles, out, position);
      (forall p :: p != out ==> (p in m.files <==> p in files)) &&
      (forall p :: p != out && p in files ==> m.files[p] == files[p])
    decreases |xTiles|
  {
    if |xTiles| > 1 {
      MergeKeepsOthers(files, xTiles[..|xTiles| - 1], tilesFiles, out, position);
    }
  }

  /** One more tile after a successful prefix: the effect of the longer prefix. */
  lemma MergeOneMore(files: map<string, Image>, xTiles: seq<string>, tilesFiles: map<string, string>,
                     out: string, position: string, i: nat)
    requires 1 <= i < |xTiles|
    ensures var prev := MergeEffect(files, xTiles[..i], tilesFiles, out, position);
      prev.result.Ok? ==>
        MergeEffect(files, xTiles[..i + 1], tilesFiles, out, position) == MergeStep(prev.files, tilesFiles, xTiles[i], out, position)
  {
    assert xTiles[..i + 1][..i] == xTiles[..i];
  }

  /** A failed prefix fails the whole call, with the same error and files. */
  lemma {:induction false} MergeFailureSticks(files: map<string, Image>, xTiles: seq<string>, tilesFiles: map<string, string>,
                                              out: string, position: string, i: nat)
    requires 1 <= i <= |xTiles|
    requires MergeEffect(files, xTiles[..i], tilesFiles, out, position).result.Err?
    ensures MergeEffect(files, xTiles, tilesFiles, out, position) == MergeEffect(files, xTiles[..i], tilesFiles, out, position)
    decreases |xTiles| - i
  {
    if i < |xTiles| {
      assert xTiles[..i + 1][..i] == xTiles[..i];
      MergeFailureSticks(files, xTiles, tilesFiles, out, position, i + 1);
    } else {
      assert xTiles[..i] == xTiles;
    }
  }

  /**
   * One turn of the loop of `merge_array_tiles`: `imgT1` is the image last
   * saved as `out`; the tile is opened, joined to it and the join saved.
   */
  method MergeTurn(fs: FileSystem, imgT1: Image, tilesFiles: map<string, string>, key: string,
                   out: string, position: string) returns (r: Result<string, MergeError>)
    requires out in fs.files && fs.files[out] == imgT1
    modifies fs
    ensures var m := MergeStep(old(fs.files), tilesFiles, key, out, position);
      r == m.result && fs.files == m.files
  {
    var imgT2 := OpenTile(fs.files, tilesFiles, key);
    if imgT2.Err? {
      return Err(imgT2.error);
    }
    if position == "vertical" {
      var joined := GetConcatV(imgT1, imgT2.value);
      fs.Write(out, joined);
    } else if position == "horizontal" {
      var joined := GetConcatH(imgT1, imgT2.value);
      fs.Write(out, joined);
    }
    r := Ok(out);
  }

  /** `merge_array_tiles(x_tiles, tiles_files, outPutImg, position)`, reading and writing `fs`. */
  method MergeArrayTiles(fs: FileSystem, xTiles: seq<string>, tilesFiles: map<string, string>,
                         outPutImg: string, position: string) returns (r: Result<string, MergeError>)
    modifies fs
    ensures var m := MergeEffect(old(fs.files), xTiles, tilesFiles, outPutImg, position);
      r == m.result && fs.files == m.files
  {
    ghost var files0 := fs.files;
    if |xTiles| == 0 {
      return Err(NoTiles);
    }
    assert |xTiles[..1]| == 1 && xTiles[..1][0] == xTiles[0];
    var first := OpenTile(fs.files, tilesFiles, xTiles[0]);
    if first.Err? {
      MergeFailureSticks(files0, xTiles, tilesFiles, outPutImg, position, 1);
      return Err(first.error);
    }
    var imageMerged := first.value;
    fs.Write(outPutImg, imageMerged);
    ghost var m := Merge(Ok(outPutImg), fs.files);
    var i := 1;
    while i < |xTiles|
      invariant 1 <= i <= |xTiles|
      invariant m == MergeEffect(files0, xTiles[..i], tilesFiles, outPutImg, position)
      invariant m.result == Ok(outPutImg) && fs.files == m.files
      invariant outPutImg in fs.files && imageMerged == fs.files[outPutImg]
      decreases |xTiles| - i
    {
      MergeOneMore(files0, xTiles, tilesFiles, outPutImg, position, i);
      var turn := MergeTurn(fs, imageMerged, tilesFiles, xTiles[i], outPutImg, position);
      m := MergeStep(m.files, tilesFiles, xTiles[i], outPutImg, position);
      if turn.Err? {
        MergeFailureSticks(files0, xTiles, tilesFiles, outPutImg, position, i + 1);
        return Err(turn.error);
      }
      imageMerged := fs.files[outPutImg];
      i := i + 1;
    }
    assert xTiles[..|xTiles|] == xTiles;
    r := Ok(outPutImg);
  }

  /**
   * The k-th tile cannot be opened: its key is missing, or its path names no
   * file, except that once the first tile is saved the output path always
   * names one.
   */
  predicate Unreadable(files: map<string, Image>, xTiles: seq<string>, tilesFiles: map<string, string>, out: string, k: nat)
    requires k < |xTiles|
  {
    xTiles[k] !in tilesFiles || (tilesFiles[xTiles[k]] !in files && (k == 0 || tilesFiles[xTiles[k]] != out))
  }

  /** The call raises exactly when the list is empty or one of its tiles cannot be opened. */
  lemma {:induction false} MergeFails(files: map<string, Image>, xTiles: seq<string>, tilesFiles: map<string, string>,
                                      out: string, position: string)
    ensures MergeEffect(files, xTiles, tilesFiles, out, position).result.Err? <==>
      |xTiles| == 0 || exists k :: 0 <= k < |xTiles| && Unreadable(files, xTiles, tilesFiles, out, k)
    decreases |xTiles|
  {
    if |xTiles| > 1 {
      var n := |xTiles| - 1;
      var init := xTiles[..n];
      MergeFails(files, init, tilesFiles, out, position);
      MergeKeepsOthers(files, init, tilesFiles, out, position);
      assert forall k :: 0 <= k < n ==> init[k] == xTiles[k];
      assert forall k :: 0 <= k < n ==> (Unreadable(files, init, tilesFiles, out, k) <==> Unreadable(files, xTiles, tilesFiles, out, k));
      var prev := MergeEffect(files, init, tilesFiles, out, position);
      if prev.result.Ok? {
        var key := xTiles[n];
        assert key in tilesFiles ==> (tilesFiles[key] in prev.files <==> tilesFiles[key] in files || tilesFiles[key] == out);
        assert OpenTile(prev.files, tilesFiles, key).Err? <==> Unreadable(files, xTiles, tilesFiles, out, n);
      }
    } else if |xTiles| == 1 {
      assert OpenTile(files, tilesFiles, xTiles[0]).Err? <==> Unreadable(files, xTiles, tilesFiles, out, 0);
    }
  }

  /** The images of the tiles, as opened from `files`. */
  function TileImages(files: map<string, Image>, xTiles: seq<string>, tilesFiles: map<string, string>): (ims: seq<Image>)
    requires forall k :: 0 <= k < |xTiles| ==> xTiles[k] in tilesFiles && tilesFiles[xTiles[k]] in files
    ensures |ims| == |xTiles|
    ensures forall k :: 0 <= k < |xTiles| ==> ims[k] == files[tilesFiles[xTiles[k]]]
  {
    seq(|xTiles|, k requires 0 <= k < |xTiles| => files[tilesFiles[xTiles[k]]])
  }

  /** The left fold of the join `position` names over the images; any other position keeps the first. */
  function FoldJoin(position: string, ims: seq<Image>): Image
    requires |ims| > 0
    decreases |ims|
  {
    if |ims| == 1 then ims[0]
    else
      var acc := FoldJoin(position, ims[..|ims| - 1]);
      if position == "vertical" then ConcatV(acc, ims[|ims| - 1])
      else if position == "horizontal" then ConcatH(acc, ims[|ims| - 1])
      else acc
  }

  /**
   * When every tile opens and none is the output file itself, the call
   * succeeds and leaves the fold of the joins over the tiles in the output
   * file, every other file untouched.
   */
  lemma {:induction false} MergeIsFold(files: map<string, Image>, xTiles: seq<string>, tilesFiles: map<string, string>,
                                       out: string, position: string)
    requires |xTiles| > 0
    requires forall k :: 0 <= k < |xTiles| ==>
      xTiles[k] in tilesFiles && tilesFiles[xTiles[k]] in files && tilesFiles[xTiles[k]] != out
    ensures MergeEffect(files, xTiles, tilesFiles, out, position) ==
      Merge(Ok(out), files[out := FoldJoin(position, TileImages(files, xTiles, tilesFiles))])
    decreases |xTiles|
  {
    var ims := TileImages(files, xTiles, tilesFiles);
    if |xTiles| > 1 {
      var n := |xTiles| - 1;
      var init := xTiles[..n];
      MergeIsFold(files, init, tilesFiles, out, position);
      var prevIms := TileImages(files, init, tilesFiles);
      assert prevIms == ims[..n];
      var prev := MergeEffect(files, init, tilesFiles, out, position);
      assert OpenTile(prev.files, tilesFiles, xTiles[n]) == Ok(ims[n]);
      var acc := FoldJoin(position, prevIms);
      if position != "vertical" && position != "horizontal" {
        assert prev.files == files[out := acc];
      }
    }
  }

  function SumWidths(ims: seq<Image>): nat
    decreases |ims|
  {
    if |ims| == 0 then 0 else SumWidths(ims[..|ims| - 1]) + ims[|ims| - 1].width
  }

  function SumHeights(ims: seq<Image>): nat
    decreases |ims|
  {
    if |ims| == 0 then 0 else SumHeights(ims[..|ims| - 1]) + ims[|ims| - 1].height
  }

  /** Joined side by side, the images make one as wide as all of them together and as high as the first. */
  lemma {:induction false} FoldHorizontalSize(ims: seq<Image>)
    requires |ims| > 0
    ensures FoldJoin("horizontal", ims).width == SumWidths(ims)
    ensures FoldJoin("horizontal", ims).height == ims[0].height
    decreases |ims|
  {
    if |ims| > 1 {
      var init := ims[..|ims| - 1];
      FoldHorizontalSize(init);
      assert init[..|init| - 1] == ims[..|ims| - 2];
      assert init[0] == ims[0];
    } else {
      assert ims[..0] == [];
    }
  }

  /** Stacked, the images make one as wide as the first and as high as all of them together. */
  lemma {:induction false} FoldVerticalSize(ims: seq<Image>)
    requires |ims| > 0
    ensures FoldJoin("vertical", ims).width == ims[0].width
    ensures FoldJoin("vertical", ims).height == SumHeights(ims)
    decreases |ims|
  {
    if |ims| > 1 {
      var init := ims[..|ims| - 1];
      FoldVerticalSize(init);
      assert init[0] == ims[0];
    } else {
      assert ims[..0] == [];
    }
  }

  /** With a position other than "vertical" and "horizontal", the fold is the first image, unchanged. */
  lemma {:induction false} FoldOtherPosition(position: string, ims: seq<Image>)
    requires |ims| > 0
    requires position != "vertical" && position != "horizontal"
    ensures FoldJoin(position, ims) == ims[0]
    decreases |ims|
  {
    if |ims| > 1 {
      var init := ims[..|ims| - 1];
      FoldOtherPosition(position, init);
      assert init[0] == ims[0];
    }
  }

  /** With one tile, or a position other than "vertical" and "horizontal", the output file holds the first tile unchanged. */
  lemma {:induction false} MergeKeepsFirst(files: map<string, Image>, xTiles: seq<string>, tilesFiles: map<string, string>,
                                           out: string, position: string)
    requires |xTiles| == 1 || (position != "vertical" && position != "horizontal")
    ensures var m := MergeEffect(files, xTiles, tilesFiles, out, position);
      m.result.Ok? ==>
        xTiles[0] in tilesFiles && tilesFiles[xTiles[0]] in files && m.files == files[out := files[tilesFiles[xTiles[0]]]]
    decreases |xTiles|
  {
    var m := MergeEffect(files, xTiles, tilesFiles, out, position);
    if |xTiles| > 1 && m.result.Ok? {
      var init := xTiles[..|xTiles| - 1];
      var prev := MergeEffect(files, init, tilesFiles, out, position);
      assert prev.result.Ok?;
      MergeKeepsFirst(files, init, tilesFiles, out, position);
      assert init[0] == xTiles[0];
    }
  }

  // ---------------------------------------------------------------------------
  // verify_tile_images: the file names
  // ---------------------------------------------------------------------------

  /** `f"{download_folder}/{tile}.{tile_image_extencion}"`. */
  function TileImageName(downloadFolder: string, tile: string, ext: string): string
  {
    downloadFolder + "/" + tile + "." + ext
  }

  /** Distinct tiles get distinct names. */
  lemma TileImageNameInjective(downloadFolder: string, t1: string, t2: string, ext: string)
    requires TileImageName(downloadFolder, t1, ext) == TileImageName(downloadFolder, t2, ext)
    ensures t1 == t2
  {
    var n1, n2 := TileImageName(downloadFolder, t1, ext), TileImageName(downloadFolder, t2, ext);
    var lo := |downloadFolder| + 1;
    assert t1 == n1[lo..lo + |t1|];
    assert t2 == n2[lo..lo + |t2|];
  }

  /**
   * The names `verify_tile_images` builds before checking the files: one per
   * distinct tile, in the order `set(tiles)` iterates, which the model leaves open.
   */
  method TileImageNames(tiles: seq<string>, downloadFolder: string, ext: string) returns (names: seq<string>)
    ensures |names| == |set t | t in tiles|
    ensures forall n :: n in names <==> exists t :: t in tiles && n == TileImageName(downloadFolder, t, ext)
    ensures forall i, j :: 0 <= i < j < |names| ==> names[i] != names[j]
  {
    var distinct := set t | t in tiles;
    var remaining := distinct;
    ghost var done: set<string> := {};
    names := [];
    while remaining != {}
      invariant remaining + done == distinct && remaining !! done
      invariant |names| == |done|
      invariant forall n :: n in names <==> exists t :: t in done && n == TileImageName(downloadFolder, t, ext)
      invariant forall i, j :: 0 <= i < j < |names| ==> names[i] != names[j]
      decreases |remaining|
    {
      var tile :| tile in remaining;
      var imgFname := TileImageName(downloadFolder, tile, ext);
      forall n | n in names
        ensures n != imgFname
      {
        var t :| t in done && n == TileImageName(downloadFolder, t, ext);
        if n == imgFname {
          TileImageNameInjective(downloadFolder, t, tile, ext);
        }
      }
      assert forall i :: 0 <= i < |names| ==> names[i] in names;
      names := names + [imgFname];
      remaining := remaining - {tile};
      done := done + {tile};
    }
  }
}
