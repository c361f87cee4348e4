/**
 * The mosaic stitcher (super_tiles/utils_img.py, `stitcher_tiles`): drop the
 * `"_"` placeholders, read each tile's grid column and row back from its file
 * name, sort by them, and paste every tile onto a transparent canvas at its
 * offset from the top-left tile of the grid.
 */
module Stitch {
  import opened Common
  import opened Text
  import opened Raster
  import opened Storage
  import Transform

  /** The canvas colour `(0, 0, 255, 0)`: fully transparent. */
  const Background := Rgba(0, 0, 255, 0)

  /** The placeholder a missing tile was once recorded as. */
  const Sentinel := "_"

  /** A tile path with the grid position its name encodes. */
  datatype Entry = Entry(path: string, x: int, y: int)

  /** A tile image with its grid position. */
  datatype Placed = Placed(x: int, y: int, im: Image)

  /**
   * How `stitcher_tiles` ends: it returns the mosaic path, or it logs a caught
   * `Exception` and returns `None`, or `SystemExit` escapes it (no tile at all).
   */
  datatype StitchOutcome = Stitched(path: string) | Failed | Exit

  /** `[filep for filep in paths if filep != "_"]`. */
  function DropSentinels(paths: seq<string>): seq<string>
    decreases |paths|
  {
    if |paths| == 0 then []
    else
      var r := DropSentinels(paths[..|paths| - 1]);
      if paths[|paths| - 1] == Sentinel then r else r + [paths[|paths| - 1]]
  }

  /** Every placeholder is dropped and every other path is kept, as often as it occurs. */
  lemma {:induction false} DropSentinelsKeepsTheRest(paths: seq<string>)
    ensures Sentinel !in DropSentinels(paths)
    ensures forall p :: p != Sentinel ==> multiset(DropSentinels(paths))[p] == multiset(paths)[p]
    decreases |paths|
  {
    if |paths| > 0 {
      var q := paths[..|paths| - 1];
      DropSentinelsKeepsTheRest(q);
      assert paths == q + [paths[|paths| - 1]];
    }
  }

  /** A list without placeholders passes the filter unchanged. */
  lemma {:induction false} DropSentinelsWithout(paths: seq<string>)
    requires Sentinel !in paths
    ensures DropSentinels(paths) == paths
    decreases |paths|
  {
    if |paths| > 0 {
      var q := paths[..|paths| - 1];
      assert paths == q + [paths[|paths| - 1]];
      DropSentinelsWithout(q);
    }
  }

  /** The inner `xy`: the column and row that the basename `x-y-…` of a path encodes. */
  function Xy(path: string): Option<(int, int)>
  {
    var parts := Split(Basename(path), '-');
    if |parts| != 3 then None
    else
      match (ParseInt(parts[0]), ParseInt(SplitExtRoot(parts[1])))
      case (Some(x), Some(y)) => Some((x, y))
      case _ => None
  }

  /** The file name of a tile: its id with the `.png` extension. */
  function TileFileName(t: Transform.Tile): string
  {
    Transform.TileId(t) + ".png"
  }

  /** A tile file name splits on `-` into column, row and `z.png`, and holds no `/`. */
  lemma TileFileNameParts(t: Transform.Tile)
    ensures Split(TileFileName(t), '-') == [NatToString(t.x), NatToString(t.y), NatToString(t.z) + ".png"]
    ensures '/' !in TileFileName(t)
  {
    var a, b, c := NatToString(t.x), NatToString(t.y), NatToString(t.z);
    Join3(a, b, c, '-');
    Join3(a, b, c + ".png", '-');
    assert TileFileName(t) == a + "-" + b + "-" + (c + ".png");
    DigitsExclude(a, '-'); DigitsExclude(b, '-'); DigitsExclude(c, '-');
    DigitsExclude(a, '/'); DigitsExclude(b, '/'); DigitsExclude(c, '/');
    SplitJoin([a, b, c + ".png"], '-');
  }

  /** `xy` reads back the column and row of a tile file named `folder/x-y-z.png`. */
  lemma XyOfTilePath(folder: string, t: Transform.Tile)
    ensures Xy(folder + "/" + TileFileName(t)) == Some((t.x, t.y))
  {
    TileFileNameParts(t);
    BasenameAfterSlash(folder, TileFileName(t));
    var y := NatToString(t.y);
    DigitsExclude(y, '.');
    SplitExtRootNoDot(y);
    DigitsValueOfNatToString(t.x);
    DigitsValueOfNatToString(t.y);
  }

  lemma Join3(a: string, b: string, c: string, sep: char)
    ensures Join([a, b, c], sep) == a + [sep] + b + [sep] + c
  {
    assert [a, b, c][1..] == [b, c];
    assert [b, c][1..] == [c];
    assert Join([b, c], sep) == b + [sep] + c;
    assert a + [sep] + (b + [sep] + c) == a + [sep] + b + [sep] + c;
  }

  /** `xy` of every path, or `None` when one of them raises. */
  function ParseAll(paths: seq<string>): Option<seq<Entry>>
  {
    if forall k :: 0 <= k < |paths| ==> Xy(paths[k]).Some? then
      Some(seq(|paths|, k requires 0 <= k < |paths| => Entry(paths[k], Xy(paths[k]).value.0, Xy(paths[k]).value.1)))
    else None
  }

  /** The order of `sorted(…, key=xy)`: by column, then by row. */
  predicate KeyLe(a: Entry, b: Entry)
  {
    a.x < b.x || (a.x == b.x && a.y <= b.y)
  }

  predicate SortedByKey(es: seq<Entry>)
  {
    forall i, j :: 0 <= i < j < |es| ==> KeyLe(es[i], es[j])
  }

  /** Insert e after every entry whose key is not greater: equal keys keep their input order. */
  function Insert(es: seq<Entry>, e: Entry): (r: seq<Entry>)
    ensures |r| == |es| + 1
    ensures multiset(r) == multiset(es) + multiset{e}
    decreases |es|
  {
    if |es| == 0 then [e]
    else
      var last := es[|es| - 1];
      if KeyLe(last, e) then es + [e]
      else
        var init := es[..|es| - 1];
        assert es == init + [last];
        Insert(init, e) + [last]
  }

  /** Inserting into a sorted list keeps it sorted. */
  lemma {:induction false} InsertSorted(es: seq<Entry>, e: Entry)
    requires SortedByKey(es)
    ensures SortedByKey(Insert(es, e))
    decreases |es|
  {
    if |es| > 0 {
      var last := es[|es| - 1];
      if !KeyLe(last, e) {
        var init := es[..|es| - 1];
        assert es == init + [last];
        InsertSorted(init, e);
        var r := Insert(init, e);
        forall i | 0 <= i < |init|
          ensures KeyLe(init[i], last)
        {
          assert init[i] == es[i];
        }
        InsertBelow(init, e, last);
        SortedAppend(r, last);
        assert Insert(es, e) == r + [last];
      } else {
        forall i | 0 <= i < |es|
          ensures KeyLe(es[i], e)
        {
          assert KeyLe(es[i], last);
        }
        SortedAppend(es, e);
      }
    }
  }

  /** Inserting an entry no greater than `bound` into entries no greater than `bound` leaves them all no greater. */
  lemma InsertBelow(es: seq<Entry>, e: Entry, bound: Entry)
    requires forall i :: 0 <= i < |es| ==> KeyLe(es[i], bound)
    requires KeyLe(e, bound)
    ensures forall i :: 0 <= i < |Insert(es, e)| ==> KeyLe(Insert(es, e)[i], bound)
  {
    var r := Insert(es, e);
    forall i | 0 <= i < |r|
      ensures KeyLe(r[i], bound)
    {
      var x := r[i];
      assert x in multiset(r);
      assert x in multiset(es) + multiset{e};
      if x != e {
        var j :| 0 <= j < |es| && es[j] == x;
      }
    }
  }

  /** A sorted list followed by an entry no smaller than any of it is sorted. */
  lemma SortedAppend(es: seq<Entry>, e: Entry)
    requires SortedByKey(es)
    requires forall i :: 0 <= i < |es| ==> KeyLe(es[i], e)
    ensures SortedByKey(es + [e])
  {
    var r := es + [e];
    forall i, j | 0 <= i < j < |r|
      ensures KeyLe(r[i], r[j])
    {
      assert r[i] == es[i];
    }
  }

  /** `sorted(entries, key=xy)`: a stable sort by (column, row). */
  function SortEntries(es: seq<Entry>): (r: seq<Entry>)
    ensures |r| == |es|
    ensures multiset(r) == multiset(es)
    ensures SortedByKey(r)
    decreases |es|
  {
    if |es| == 0 then []
    else
      assert es == es[..|es| - 1] + [es[|es| - 1]];
      InsertSorted(SortEntries(es[..|es| - 1]), es[|es| - 1]);
      Insert(SortEntries(es[..|es| - 1]), es[|es| - 1])
  }

  function MinOf(s: seq<int>): (m: int)
    requires |s| > 0
    ensures forall k :: 0 <= k < |s| ==> m <= s[k]
    ensures exists k :: 0 <= k < |s| && s[k] == m
    decreases |s|
  {
    if |s| == 1 then s[0]
    else
      var m := MinOf(s[..|s| - 1]);
      if s[|s| - 1] < m then s[|s| - 1] else m
  }

  function MaxOf(s: seq<int>): (m: int)
    requires |s| > 0
    ensures forall k :: 0 <= k < |s| ==> s[k] <= m
    ensures exists k :: 0 <= k < |s| && s[k] == m
    decreases |s|
  {
    if |s| == 1 then s[0]
    else
      var m := MaxOf(s[..|s| - 1]);
      if s[|s| - 1] > m then s[|s| - 1] else m
  }

  function Columns(tiles: seq<Placed>): seq<int> { seq(|tiles|, k requires 0 <= k < |tiles| => tiles[k].x) }

  function Rows(tiles: seq<Placed>): seq<int> { seq(|tiles|, k requires 0 <= k < |tiles| => tiles[k].y) }

  /** Every tile is `tileW` by `tileH`: a tile of another size makes `paste` raise. */
  predicate Uniform(tiles: seq<Placed>, tileW: nat, tileH: nat)
  {
    forall k :: 0 <= k < |tiles| ==> tiles[k].im.width == tileW && tiles[k].im.height == tileH
  }

  /** What stitching a list of paths comes to, before any pixel is pasted. */
  datatype Plan = NoTiles | Broken | Ready(tiles: seq<Placed>, tileW: nat, tileH: nat)

  /** Every tile file exists and is `w` by `h`. */
  predicate SizedAs(files: map<string, Image>, es: seq<Entry>, w: nat, h: nat)
  {
    forall k :: 0 <= k < |es| ==>
      es[k].path in files && files[es[k].path].width == w && files[es[k].path].height == h
  }

  /** Every tile file exists and has the size of the first one. */
  predicate Readable(files: map<string, Image>, es: seq<Entry>)
    requires |es| > 0
  {
    es[0].path in files && SizedAs(files, es, files[es[0].path].width, files[es[0].path].height)
  }

  /**
   * The decisions `stitcher_tiles` takes on `files` and `paths`: no tile
   * left (`SystemExit`), an exception on the way (a name `xy` cannot read,
   * a missing file, a tile of another size), or the tiles to paste, sorted.
   */
  function PlanStitch(files: map<string, Image>, paths: seq<string>): (p: Plan)
    ensures p.Ready? ==> |p.tiles| > 0 && Uniform(p.tiles, p.tileW, p.tileH)
  {
    var kept := DropSentinels(paths);
    match ParseAll(kept)
    case None => Broken
    case Some(es) =>
      var sorted := SortEntries(es);
      if |sorted| == 0 then NoTiles
      else if !Readable(files, sorted) then Broken
      else Ready(PlaceAll(files, sorted), files[sorted[0].path].width, files[sorted[0].path].height)
  }

  /** Each entry with the image its file holds. */
  function PlaceAll(files: map<string, Image>, es: seq<Entry>): (r: seq<Placed>)
    requires |es| > 0 && Readable(files, es)
    ensures |r| == |es|
    ensures forall k :: 0 <= k < |es| ==> r[k] == Placed(es[k].x, es[k].y, files[es[k].path])
    ensures Uniform(r, files[es[0].path].width, files[es[0].path].height)
  {
    seq(|es|, k requires 0 <= k < |es| => Placed(es[k].x, es[k].y, files[es[k].path]))
  }

  /** A span of the tile grid: from column x0 and row y0 to column x1 and row y1. */
  datatype Span = Span(x0: int, y0: int, x1: int, y1: int)

  predicate Within(tiles: seq<Placed>, g: Span)
  {
    forall k :: 0 <= k < |tiles| ==> g.x0 <= tiles[k].x <= g.x1 && g.y0 <= tiles[k].y <= g.y1
  }

  /** `x_0, y_0, x_1, y_1`: the least span holding every tile, each edge reached by some tile. */
  function SpanOf(tiles: seq<Placed>): (g: Span)
    requires |tiles| > 0
    ensures Within(tiles, g)
    ensures (exists k :: 0 <= k < |tiles| && tiles[k].x == g.x0) && (exists k :: 0 <= k < |tiles| && tiles[k].x == g.x1)
    ensures (exists k :: 0 <= k < |tiles| && tiles[k].y == g.y0) && (exists k :: 0 <= k < |tiles| && tiles[k].y == g.y1)
  {
    var xs, ys := Columns(tiles), Rows(tiles);
    assert forall k :: 0 <= k < |tiles| ==> xs[k] == tiles[k].x && ys[k] == tiles[k].y;
    Span(MinOf(xs), MinOf(ys), MaxOf(xs), MaxOf(ys))
  }

  /** The tile pasted at its pixel offset from the span's top-left cell. */
  function TileLayer(t: Placed, g: Span, tileW: nat, tileH: nat): Layer
    requires g.x0 <= t.x && g.y0 <= t.y
  {
    Layer((t.x - g.x0) * tileW, (t.y - g.y0) * tileH, t.im)
  }

  function GridLayers(tiles: seq<Placed>, g: Span, tileW: nat, tileH: nat): seq<Layer>
    requires Within(tiles, g)
  {
    seq(|tiles|, k requires 0 <= k < |tiles| => TileLayer(tiles[k], g, tileW, tileH))
  }

  /** The layers `stitcher_tiles` pastes, in the order of `tiles`. */
  function MosaicLayers(tiles: seq<Placed>, tileW: nat, tileH: nat): seq<Layer>
    requires |tiles| > 0
  {
    GridLayers(tiles, SpanOf(tiles), tileW, tileH)
  }

  /** The pixels spanned by the cells lo to hi, each `size` pixels long: `n_x * tile_w`. */
  function Extent(lo: int, hi: int, size: nat): nat
    requires lo <= hi
  {
    (hi - lo + 1) * size
  }

  function MosaicWidth(tiles: seq<Placed>, tileW: nat): nat
    requires |tiles| > 0
  {
    var g := SpanOf(tiles);
    assert g.x0 <= tiles[0].x <= g.x1;
    Extent(g.x0, g.x1, tileW)
  }

  function MosaicHeight(tiles: seq<Placed>, tileH: nat): nat
    requires |tiles| > 0
  {
    var g := SpanOf(tiles);
    assert g.y0 <= tiles[0].y <= g.y1;
    Extent(g.y0, g.y1, tileH)
  }

  /** The saved supertile: the tiles pasted in order onto a transparent canvas spanning their grid. */
  function Mosaic(tiles: seq<Placed>, tileW: nat, tileH: nat): Image
    requires |tiles| > 0
  {
    Render(MosaicWidth(tiles, tileW), MosaicHeight(tiles, tileH), MosaicLayers(tiles, tileW, tileH), Background)
  }

  lemma MulMono(p: int, q: int, w: nat)
    requires p <= q
    ensures p * w <= q * w
  {
  }

  /** Column p of n columns of width w lies inside the n * w pixels of the row. */
  lemma SpanInside(p: int, n: int, w: nat)
    requires 0 <= p < n
    ensures 0 <= p * w && p * w + w <= n * w
  {
    assert (p + 1) * w <= n * w;
  }

  /** Pixel a of column q lies in column p exactly when p == q. */
  lemma CellArith(p: int, q: int, w: nat, a: nat)
    requires 0 <= p && 0 <= q && a < w
    ensures (p * w <= q * w + a < p * w + w) <==> p == q
  {
    if p < q {
      assert (p + 1) * w <= q * w;
    } else if q < p {
      assert (q + 1) * w <= p * w;
    }
  }

  /** The sorted entries are a permutation of the kept paths' entries, in (column, row) order. */
  lemma PlanIsSortedPermutation(files: map<string, Image>, paths: seq<string>)
    requires ParseAll(DropSentinels(paths)).Some?
    ensures multiset(SortEntries(ParseAll(DropSentinels(paths)).value)) == multiset(ParseAll(DropSentinels(paths)).value)
    ensures SortedByKey(SortEntries(ParseAll(DropSentinels(paths)).value))
  {
  }

  /** `SystemExit` is raised exactly when no path other than placeholders is given. */
  lemma NoTilesExactlyWhenEmpty(files: map<string, Image>, paths: seq<string>)
    ensures PlanStitch(files, paths).NoTiles? <==> |DropSentinels(paths)| == 0
  {
    var kept := DropSentinels(paths);
    var parsed := ParseAll(kept);
    if parsed.Some? {
      assert multiset(SortEntries(parsed.value)) == multiset(parsed.value);
      assert |SortEntries(parsed.value)| == |parsed.value|;
    }
  }

  /** Every paste box lies inside the canvas. */
  lemma PasteBoxesInside(tiles: seq<Placed>, tileW: nat, tileH: nat, k: nat)
    requires |tiles| > 0 && Uniform(tiles, tileW, tileH) && k < |tiles|
    ensures MosaicLayers(tiles, tileW, tileH)[k].ox + tileW <= MosaicWidth(tiles, tileW)
    ensures MosaicLayers(tiles, tileW, tileH)[k].oy + tileH <= MosaicHeight(tiles, tileH)
    ensures MosaicLayers(tiles, tileW, tileH)[k].im == tiles[k].im
  {
    GridBoxInside(tiles, SpanOf(tiles), tileW, tileH, k);
  }

  /** On a span holding every tile, each paste box lies inside the span's canvas. */
  lemma GridBoxInside(tiles: seq<Placed>, g: Span, tileW: nat, tileH: nat, k: nat)
    requires Within(tiles, g) && Uniform(tiles, tileW, tileH) && k < |tiles|
    ensures g.x0 <= g.x1 && g.y0 <= g.y1
    ensures GridLayers(tiles, g, tileW, tileH)[k].ox + tileW <= Extent(g.x0, g.x1, tileW)
    ensures GridLayers(tiles, g, tileW, tileH)[k].oy + tileH <= Extent(g.y0, g.y1, tileH)
    ensures GridLayers(tiles, g, tileW, tileH)[k].im == tiles[k].im
  {
    SpanInside(tiles[k].x - g.x0, g.x1 - g.x0 + 1, tileW);
    SpanInside(tiles[k].y - g.y0, g.y1 - g.y0 + 1, tileH);
  }

  /** Columns p and q of width w share no pixel unless p == q. */
  lemma SpansDisjoint(p: int, q: int, w: nat, i: int)
    requires p != q
    ensures !(p * w <= i < p * w + w && q * w <= i < q * w + w)
  {
    if p < q {
      assert (p + 1) * w <= q * w;
    } else {
      assert (q + 1) * w <= p * w;
    }
  }

  /** Two layers of one size at distinct grid cells (p, r) and (q, t) share no pixel. */
  lemma LayersDisjoint(l: Layer, n: Layer, p: int, r: int, q: int, t: int, i: int, j: int)
    requires l.im.width == n.im.width && l.im.height == n.im.height
    requires l.ox == p * l.im.width && l.oy == r * l.im.height
    requires n.ox == q * l.im.width && n.oy == t * l.im.height
    requires (p, r) != (q, t)
    ensures !(Covers(l, i, j) && Covers(n, i, j))
  {
    if p != q {
      SpansDisjoint(p, q, l.im.width, i);
    } else {
      SpansDisjoint(r, t, l.im.height, j);
    }
  }

  /** Tiles at distinct grid positions get disjoint paste boxes. */
  lemma PasteBoxesDisjoint(tiles: seq<Placed>, tileW: nat, tileH: nat, k: nat, m: nat, i: int, j: int)
    requires |tiles| > 0 && Uniform(tiles, tileW, tileH) && k < |tiles| && m < |tiles|
    requires (tiles[k].x, tiles[k].y) != (tiles[m].x, tiles[m].y)
    ensures !(Covers(MosaicLayers(tiles, tileW, tileH)[k], i, j) && Covers(MosaicLayers(tiles, tileW, tileH)[m], i, j))
  {
    GridBoxesDisjoint(tiles, SpanOf(tiles), tileW, tileH, k, m, i, j);
  }

  /** On a span holding every tile, tiles at distinct grid positions get disjoint paste boxes. */
  lemma GridBoxesDisjoint(tiles: seq<Placed>, g: Span, tileW: nat, tileH: nat, k: nat, m: nat, i: int, j: int)
    requires Within(tiles, g) && Uniform(tiles, tileW, tileH) && k < |tiles| && m < |tiles|
    requires (tiles[k].x, tiles[k].y) != (tiles[m].x, tiles[m].y)
    ensures !(Covers(GridLayers(tiles, g, tileW, tileH)[k], i, j) && Covers(GridLayers(tiles, g, tileW, tileH)[m], i, j))
  {
    var ls := GridLayers(tiles, g, tileW, tileH);
    assert ls[k] == TileLayer(tiles[k], g, tileW, tileH);
    assert ls[m] == TileLayer(tiles[m], g, tileW, tileH);
    LayersDisjoint(ls[k], ls[m], tiles[k].x - g.x0, tiles[k].y - g.y0, tiles[m].x - g.x0, tiles[m].y - g.y0, i, j);
  }

  /** Pixel (a, b) of the grid cell (gx, gy) inside span g. */
  predicate InCell(g: Span, tileW: nat, tileH: nat, gx: int, gy: int, a: nat, b: nat)
  {
    g.x0 <= gx <= g.x1 && g.y0 <= gy <= g.y1 && a < tileW && b < tileH
  }

  /** A layer at grid cell (p, r) covers pixel (a, b) of cell (q, t) exactly when the cells agree. */
  lemma LayerCoversCell(l: Layer, p: int, q: int, r: int, t: int, a: nat, b: nat)
    requires 0 <= p && 0 <= q && 0 <= r && 0 <= t && a < l.im.width && b < l.im.height
    requires l.ox == p * l.im.width && l.oy == r * l.im.height
    ensures Covers(l, q * l.im.width + a, t * l.im.height + b) <==> p == q && r == t
  {
    CellArith(p, q, l.im.width, a);
    CellArith(r, t, l.im.height, b);
  }

  /** A tile covers pixel (a, b) of grid cell (gx, gy) exactly when it sits at (gx, gy). */
  lemma CoversCell(tiles: seq<Placed>, g: Span, tileW: nat, tileH: nat, k: nat, gx: int, gy: int, a: nat, b: nat)
    requires Within(tiles, g) && Uniform(tiles, tileW, tileH) && k < |tiles|
    requires InCell(g, tileW, tileH, gx, gy, a, b)
    ensures Covers(GridLayers(tiles, g, tileW, tileH)[k], (gx - g.x0) * tileW + a, (gy - g.y0) * tileH + b)
      <==> tiles[k].x == gx && tiles[k].y == gy
  {
    var l := GridLayers(tiles, g, tileW, tileH)[k];
    var p, q, r, t := tiles[k].x - g.x0, gx - g.x0, tiles[k].y - g.y0, gy - g.y0;
    LayerCoversCell(l, p, q, r, t, a, b);
    var i, j := (gx - g.x0) * tileW + a, (gy - g.y0) * tileH + b;
    assert i == q * l.im.width + a;
    assert j == t * l.im.height + b;
  }

  /** Pixel (a, b) of a cell of the span lies on the canvas. */
  lemma CellInside(g: Span, tileW: nat, tileH: nat, gx: int, gy: int, a: nat, b: nat)
    requires InCell(g, tileW, tileH, gx, gy, a, b)
    ensures 0 <= (gx - g.x0) * tileW + a < Extent(g.x0, g.x1, tileW)
    ensures 0 <= (gy - g.y0) * tileH + b < Extent(g.y0, g.y1, tileH)
  {
    SpanInside(gx - g.x0, g.x1 - g.x0 + 1, tileW);
    SpanInside(gy - g.y0, g.y1 - g.y0 + 1, tileH);
  }

  /** A pixel of the supertile is what the pasted layers leave there. */
  lemma MosaicPixel(tiles: seq<Placed>, tileW: nat, tileH: nat, i: int, j: int)
    requires |tiles| > 0
    requires 0 <= i < MosaicWidth(tiles, tileW) && 0 <= j < MosaicHeight(tiles, tileH)
    ensures Mosaic(tiles, tileW, tileH).width == MosaicWidth(tiles, tileW)
    ensures Mosaic(tiles, tileW, tileH).height == MosaicHeight(tiles, tileH)
    ensures |Mosaic(tiles, tileW, tileH).cols| == MosaicWidth(tiles, tileW)
    ensures |Mosaic(tiles, tileW, tileH).cols[i]| == MosaicHeight(tiles, tileH)
    ensures Mosaic(tiles, tileW, tileH).cols[i][j] == Composite(MosaicLayers(tiles, tileW, tileH), Background, i, j)
  {
  }

  /** On the layers of a span, a grid cell that no tile occupies keeps the background. */
  lemma GridCellEmpty(tiles: seq<Placed>, g: Span, tileW: nat, tileH: nat, gx: int, gy: int, a: nat, b: nat)
    requires Within(tiles, g) && Uniform(tiles, tileW, tileH)
    requires InCell(g, tileW, tileH, gx, gy, a, b)
    requires forall k :: 0 <= k < |tiles| ==> (tiles[k].x, tiles[k].y) != (gx, gy)
    ensures Composite(GridLayers(tiles, g, tileW, tileH), Background, (gx - g.x0) * tileW + a, (gy - g.y0) * tileH + b) == Background
  {
    var layers := GridLayers(tiles, g, tileW, tileH);
    var i, j := (gx - g.x0) * tileW + a, (gy - g.y0) * tileH + b;
    forall k | 0 <= k < |layers|
      ensures !Covers(layers[k], i, j)
    {
      CoversCell(tiles, g, tileW, tileH, k, gx, gy, a, b);
    }
    CompositeUncovered(layers, Background, i, j);
  }

  /** On the layers of a span, a grid cell shows the last tile placed there. */
  lemma GridCellShowsLast(tiles: seq<Placed>, g: Span, tileW: nat, tileH: nat, k: nat, a: nat, b: nat)
    requires Within(tiles, g) && Uniform(tiles, tileW, tileH) && k < |tiles|
    requires a < tileW && b < tileH
    requires forall m :: k < m < |tiles| ==> (tiles[m].x, tiles[m].y) != (tiles[k].x, tiles[k].y)
    ensures Composite(GridLayers(tiles, g, tileW, tileH), Background,
      (tiles[k].x - g.x0) * tileW + a, (tiles[k].y - g.y0) * tileH + b) == tiles[k].im.cols[a][b]
  {
    var layers := GridLayers(tiles, g, tileW, tileH);
    var gx, gy := tiles[k].x, tiles[k].y;
    var l := layers[k];
    assert l == TileLayer(tiles[k], g, tileW, tileH);
    var i, j := l.ox + a, l.oy + b;
    CoversCell(tiles, g, tileW, tileH, k, gx, gy, a, b);
    LaterTilesElsewhere(tiles, g, tileW, tileH, k, a, b);
    CompositeTopmost(layers, Background, i, j, k);
  }

  /** No tile after the k-th covers a pixel of its cell, when none of them sits there. */
  lemma LaterTilesElsewhere(tiles: seq<Placed>, g: Span, tileW: nat, tileH: nat, k: nat, a: nat, b: nat)
    requires Within(tiles, g) && Uniform(tiles, tileW, tileH) && k < |tiles|
    requires a < tileW && b < tileH
    requires forall m :: k < m < |tiles| ==> (tiles[m].x, tiles[m].y) != (tiles[k].x, tiles[k].y)
    ensures forall m :: k < m < |tiles| ==>
      !Covers(GridLayers(tiles, g, tileW, tileH)[m], (tiles[k].x - g.x0) * tileW + a, (tiles[k].y - g.y0) * tileH + b)
  {
    forall m | k < m < |tiles|
      ensures !Covers(GridLayers(tiles, g, tileW, tileH)[m], (tiles[k].x - g.x0) * tileW + a, (tiles[k].y - g.y0) * tileH + b)
    {
      CoversCell(tiles, g, tileW, tileH, m, tiles[k].x, tiles[k].y, a, b);
    }
  }

  /** On the canvas of a span, a grid cell that no tile occupies keeps the background. */
  lemma GridEmptyPixel(tiles: seq<Placed>, g: Span, tileW: nat, tileH: nat, gx: int, gy: int, a: nat, b: nat)
    requires Within(tiles, g) && Uniform(tiles, tileW, tileH)
    requires InCell(g, tileW, tileH, gx, gy, a, b)
    requires forall k :: 0 <= k < |tiles| ==> (tiles[k].x, tiles[k].y) != (gx, gy)
    ensures PixelIs(Render(Extent(g.x0, g.x1, tileW), Extent(g.y0, g.y1, tileH), GridLayers(tiles, g, tileW, tileH), Background),
                    (gx - g.x0) * tileW + a, (gy - g.y0) * tileH + b, Background)
  {
    CellInside(g, tileW, tileH, gx, gy, a, b);
    GridCellEmpty(tiles, g, tileW, tileH, gx, gy, a, b);
  }

  /** A grid cell that no tile occupies stays transparent. */
  lemma EmptyCellKeepsBackground(tiles: seq<Placed>, tileW: nat, tileH: nat, gx: int, gy: int, a: nat, b: nat)
    requires |tiles| > 0 && Uniform(tiles, tileW, tileH)
    requires InCell(SpanOf(tiles), tileW, tileH, gx, gy, a, b)
    requires forall k :: 0 <= k < |tiles| ==> (tiles[k].x, tiles[k].y) != (gx, gy)
    ensures var g := SpanOf(tiles);
      var i, j := (gx - g.x0) * tileW + a, (gy - g.y0) * tileH + b;
      PixelIs(Mosaic(tiles, tileW, tileH), i, j, Background)
  {
    var g := SpanOf(tiles);
    var i, j := (gx - g.x0) * tileW + a, (gy - g.y0) * tileH + b;
    assert Mosaic(tiles, tileW, tileH) ==
      Render(Extent(g.x0, g.x1, tileW), Extent(g.y0, g.y1, tileH), GridLayers(tiles, g, tileW, tileH), Background);
    GridEmptyPixel(tiles, g, tileW, tileH, gx, gy, a, b);
  }

  /** A grid cell holds, pixel for pixel, the last tile of the sorted list that sits there. */
  lemma CellShowsLastTile(tiles: seq<Placed>, tileW: nat, tileH: nat, k: nat, a: nat, b: nat)
    requires |tiles| > 0 && Uniform(tiles, tileW, tileH) && k < |tiles|
    requires a < tileW && b < tileH
    requires forall m :: k < m < |tiles| ==> (tiles[m].x, tiles[m].y) != (tiles[k].x, tiles[k].y)
    ensures var g := SpanOf(tiles);
      var i, j := (tiles[k].x - g.x0) * tileW + a, (tiles[k].y - g.y0) * tileH + b;
      PixelIs(Mosaic(tiles, tileW, tileH), i, j, tiles[k].im.cols[a][b])
  {
    var g := SpanOf(tiles);
    var i, j := (tiles[k].x - g.x0) * tileW + a, (tiles[k].y - g.y0) * tileH + b;
    CellInside(g, tileW, tileH, tiles[k].x, tiles[k].y, a, b);
    MosaicPixel(tiles, tileW, tileH, i, j);
    assert MosaicLayers(tiles, tileW, tileH) == GridLayers(tiles, g, tileW, tileH);
    assert MosaicWidth(tiles, tileW) == Extent(g.x0, g.x1, tileW) && MosaicHeight(tiles, tileH) == Extent(g.y0, g.y1, tileH);
    GridCellShowsLast(tiles, g, tileW, tileH, k, a, b);
  }

  /** The integers from lo to hi. */
  function Interval(lo: int, hi: int): (r: set<int>)
    ensures forall v :: v in r <==> lo <= v <= hi
    ensures lo <= hi + 1 ==> |r| == hi - lo + 1
    decreases hi - lo
  {
    if lo > hi then {} else Interval(lo, hi - 1) + {hi}
  }

  lemma {:induction false} BoundedSetSize(s: set<int>, lo: int, hi: int)
    requires lo <= hi + 1
    requires forall v :: v in s ==> lo <= v <= hi
    ensures |s| <= hi - lo + 1
    decreases hi - lo
  {
    if lo <= hi {
      BoundedSetSize(s - {hi}, lo, hi - 1);
    } else {
      assert forall v :: v !in s;
      assert s == {};
    }
  }

  /** The distinct columns the tiles occupy. */
  function ColumnSet(tiles: seq<Placed>): set<int>
  {
    set k | 0 <= k < |tiles| :: tiles[k].x
  }

  /** Columns that all lie between lo and hi make a set of integers between lo and hi. */
  lemma ColumnsBetween(tiles: seq<Placed>, lo: int, hi: int)
    requires forall k :: 0 <= k < |tiles| ==> lo <= tiles[k].x <= hi
    ensures forall v :: v in ColumnSet(tiles) ==> lo <= v <= hi
  {
    forall v | v in ColumnSet(tiles)
      ensures lo <= v <= hi
    {
      var k :| 0 <= k < |tiles| && tiles[k].x == v;
    }
  }

  /** The distinct columns of the tiles lie in their span, and are all of it when none is missing. */
  lemma ColumnsInSpan(tiles: seq<Placed>)
    requires |tiles| > 0
    ensures var g := SpanOf(tiles);
      g.x0 <= g.x1 && ColumnSet(tiles) <= Interval(g.x0, g.x1) && |ColumnSet(tiles)| <= g.x1 - g.x0 + 1 &&
      (Interval(g.x0, g.x1) <= ColumnSet(tiles) ==> |ColumnSet(tiles)| == g.x1 - g.x0 + 1)
  {
    var g := SpanOf(tiles);
    var cols := ColumnSet(tiles);
    assert g.x0 <= tiles[0].x <= g.x1;
    ColumnsBetween(tiles, g.x0, g.x1);
    SetInInterval(cols, g.x0, g.x1);
  }

  /** A set of integers between lo and hi has at most hi - lo + 1 members, and exactly that many when it holds them all. */
  lemma SetInInterval(s: set<int>, lo: int, hi: int)
    requires lo <= hi + 1
    requires forall v :: v in s ==> lo <= v <= hi
    ensures s <= Interval(lo, hi) && |s| <= hi - lo + 1
    ensures Interval(lo, hi) <= s ==> |s| == hi - lo + 1
  {
    BoundedSetSize(s, lo, hi);
    if Interval(lo, hi) <= s {
      assert s == Interval(lo, hi);
    }
  }

  /**
   * The mosaic is at least as wide as its distinct columns times the tile
   * width, and exactly that wide when no column of the span is missing.
   */
  lemma MosaicWidthAndColumns(tiles: seq<Placed>, tileW: nat)
    requires |tiles| > 0
    ensures |ColumnSet(tiles)| * tileW <= MosaicWidth(tiles, tileW)
    ensures Interval(SpanOf(tiles).x0, SpanOf(tiles).x1) <= ColumnSet(tiles) ==>
      |ColumnSet(tiles)| * tileW == MosaicWidth(tiles, tileW)
  {
    var g := SpanOf(tiles);
    ColumnsInSpan(tiles);
    var n, span := |ColumnSet(tiles)|, g.x1 - g.x0 + 1;
    assert MosaicWidth(tiles, tileW) == span * tileW;
    MulMono(n, span, tileW);
  }

  /** The distinct rows the tiles occupy. */
  function RowSet(tiles: seq<Placed>): set<int>
  {
    set k | 0 <= k < |tiles| :: tiles[k].y
  }

  /** Rows that all lie between lo and hi make a set of integers between lo and hi. */
  lemma RowsBetween(tiles: seq<Placed>, lo: int, hi: int)
    requires forall k :: 0 <= k < |tiles| ==> lo <= tiles[k].y <= hi
    ensures forall v :: v in RowSet(tiles) ==> lo <= v <= hi
  {
    forall v | v in RowSet(tiles)
      ensures lo <= v <= hi
    {
      var k :| 0 <= k < |tiles| && tiles[k].y == v;
    }
  }

  /** The distinct rows of the tiles lie in their span, and are all of it when none is missing. */
  lemma RowsInSpan(tiles: seq<Placed>)
    requires |tiles| > 0
    ensures var g := SpanOf(tiles);
      g.y0 <= g.y1 && RowSet(tiles) <= Interval(g.y0, g.y1) && |RowSet(tiles)| <= g.y1 - g.y0 + 1 &&
      (Interval(g.y0, g.y1) <= RowSet(tiles) ==> |RowSet(tiles)| == g.y1 - g.y0 + 1)
  {
    var g := SpanOf(tiles);
    var rows := RowSet(tiles);
    assert g.y0 <= tiles[0].y <= g.y1;
    RowsBetween(tiles, g.y0, g.y1);
    SetInInterval(rows, g.y0, g.y1);
  }

  /**
   * The mosaic is at least as high as its distinct rows times the tile
   * height, and exactly that high when no row of the span is missing.
   */
  lemma MosaicHeightAndRows(tiles: seq<Placed>, tileH: nat)
    requires |tiles| > 0
    ensures |RowSet(tiles)| * tileH <= MosaicHeight(tiles, tileH)
    ensures Interval(SpanOf(tiles).y0, SpanOf(tiles).y1) <= RowSet(tiles) ==>
      |RowSet(tiles)| * tileH == MosaicHeight(tiles, tileH)
  {
    var g := SpanOf(tiles);
    RowsInSpan(tiles);
    var n, span := |RowSet(tiles)|, g.y1 - g.y0 + 1;
    assert MosaicHeight(tiles, tileH) == span * tileH;
    MulMono(n, span, tileH);
  }

  /** The layers pasted for the first k sorted entries, each at its offset from (x0, y0). */
  predicate PastedSoFar(files: map<string, Image>, sorted: seq<Entry>, g: Span, tileW: nat, tileH: nat, layers: seq<Layer>)
  {
    |layers| <= |sorted| &&
    forall m :: 0 <= m < |layers| ==>
      sorted[m].path in files && g.x0 <= sorted[m].x && g.y0 <= sorted[m].y &&
      layers[m] == TileLayer(Placed(sorted[m].x, sorted[m].y, files[sorted[m].path]), g, tileW, tileH)
  }

  /** The span of the placed tiles is the one computed from the entries' columns and rows. */
  lemma SpanOfPlaced(files: map<string, Image>, sorted: seq<Entry>)
    requires |sorted| > 0 && Readable(files, sorted)
    ensures SpanOf(PlaceAll(files, sorted)) == EntrySpan(sorted)
  {
    var tiles := PlaceAll(files, sorted);
    assert Columns(tiles) == EntryColumns(sorted);
    assert Rows(tiles) == EntryRows(sorted);
  }

  /** Once every sorted entry is pasted, the layers are those of the plan's mosaic. */
  lemma PastedAll(files: map<string, Image>, sorted: seq<Entry>, tileW: nat, tileH: nat, layers: seq<Layer>)
    requires |sorted| > 0 && Readable(files, sorted)
    requires PastedSoFar(files, sorted, SpanOf(PlaceAll(files, sorted)), tileW, tileH, layers) && |layers| == |sorted|
    ensures layers == MosaicLayers(PlaceAll(files, sorted), tileW, tileH)
  {
    var tiles := PlaceAll(files, sorted);
    var g := SpanOf(tiles);
    var ms := MosaicLayers(tiles, tileW, tileH);
    forall m | 0 <= m < |layers|
      ensures layers[m] == ms[m]
    {
      assert tiles[m] == Placed(sorted[m].x, sorted[m].y, files[sorted[m].path]);
      assert ms[m] == TileLayer(tiles[m], g, tileW, tileH);
    }
  }

  function EntryColumns(es: seq<Entry>): seq<int> { seq(|es|, k requires 0 <= k < |es| => es[k].x) }

  function EntryRows(es: seq<Entry>): seq<int> { seq(|es|, k requires 0 <= k < |es| => es[k].y) }

  /** The span `stitcher_tiles` computes from the sorted entries' columns and rows; no entry lies left of or above it. */
  function EntrySpan(es: seq<Entry>): (g: Span)
    requires |es| > 0
    ensures forall m :: 0 <= m < |es| ==> g.x0 <= es[m].x && g.y0 <= es[m].y
  {
    var xs, ys := EntryColumns(es), EntryRows(es);
    assert forall m :: 0 <= m < |es| ==> xs[m] == es[m].x && ys[m] == es[m].y;
    Span(MinOf(xs), MinOf(ys), MaxOf(xs), MaxOf(ys))
  }

  /** An image holding, at every pixel, what the mosaic's layers leave there is the mosaic. */
  lemma CanvasIsMosaic(im: Image, tiles: seq<Placed>, tileW: nat, tileH: nat)
    requires |tiles| > 0
    requires im.width == MosaicWidth(tiles, tileW) && im.height == MosaicHeight(tiles, tileH)
    requires forall i, j :: 0 <= i < im.width && 0 <= j < im.height ==>
      im.cols[i][j] == Composite(MosaicLayers(tiles, tileW, tileH), Background, i, j)
    ensures im == Mosaic(tiles, tileW, tileH)
  {
    var mo := Mosaic(tiles, tileW, tileH);
    forall i, j | 0 <= i < im.width && 0 <= j < im.height
      ensures im.cols[i][j] == mo.cols[i][j]
    {
      MosaicPixel(tiles, tileW, tileH, i, j);
    }
    SameImage(im, mo);
  }

  /**
   * The paste loop: open each sorted tile and paste it at its offset from
   * the span's corner; it stops at the first tile that is missing or whose
   * size is not `tileW` by `tileH` (`open` or `paste` raises).
   */
  method PasteTiles(canvas: array2<Pixel>, files: map<string, Image>, sorted: seq<Entry>, g: Span, tileW: nat, tileH: nat)
    returns (ok: bool, ghost layers: seq<Layer>)
    requires forall m :: 0 <= m < |sorted| ==> g.x0 <= sorted[m].x && g.y0 <= sorted[m].y
    requires forall i, j :: 0 <= i < canvas.Length0 && 0 <= j < canvas.Length1 ==> canvas[i, j] == Background
    modifies canvas
    ensures ok <==> SizedAs(files, sorted, tileW, tileH)
    ensures ok ==> |layers| == |sorted| && PastedSoFar(files, sorted, g, tileW, tileH, layers)
    ensures ok ==> forall i, j :: 0 <= i < canvas.Length0 && 0 <= j < canvas.Length1 ==>
      canvas[i, j] == Composite(layers, Background, i, j)
  {
    layers := [];
    for k := 0 to |sorted|
      invariant |layers| == k && PastedSoFar(files, sorted, g, tileW, tileH, layers)
      invariant forall m :: 0 <= m < k ==>
        files[sorted[m].path].width == tileW && files[sorted[m].path].height == tileH
      invariant forall i, j :: 0 <= i < canvas.Length0 && 0 <= j < canvas.Length1 ==>
        canvas[i, j] == Composite(layers, Background, i, j)
    {
      var e := sorted[k];
      if e.path !in files {
        return false, layers;
      }
      var tile := files[e.path];
      if tile.width != tileW || tile.height != tileH {
        return false, layers;
      }
      var l := TileLayer(Placed(e.x, e.y, tile), g, tileW, tileH);
      Paste(canvas, l);
      layers := layers + [l];
    }
    ok := true;
  }

  /**
   * From the first tile's size to the saved picture: the canvas spanning the
   * tiles' grid, with every sorted tile pasted; `None` when a tile is missing
   * or of another size.
   */
  method DrawMosaic(files: map<string, Image>, sorted: seq<Entry>) returns (res: Option<Image>)
    requires |sorted| > 0 && sorted[0].path in files
    ensures res.Some? <==> Readable(files, sorted)
    ensures res.Some? ==>
      Readable(files, sorted) && res.value == Mosaic(PlaceAll(files, sorted), files[sorted[0].path].width, files[sorted[0].path].height)
  {
    var first := files[sorted[0].path];
    var tileW, tileH := first.width, first.height;
    var g := EntrySpan(sorted);
    var outImg := NewCanvas(Extent(g.x0, g.x1, tileW), Extent(g.y0, g.y1, tileH), Background);
    var ok;
    ghost var layers;
    ok, layers := PasteTiles(outImg, files, sorted, g, tileW, tileH);
    if !ok {
      return None;
    }
    var im := Freeze(outImg);
    FrozenIsMosaic(files, sorted, tileW, tileH, layers, im);
    res := Some(im);
  }

  /** The frozen canvas, once every sorted entry is pasted onto it, is the plan's mosaic. */
  lemma FrozenIsMosaic(files: map<string, Image>, sorted: seq<Entry>, tileW: nat, tileH: nat, layers: seq<Layer>, im: Image)
    requires |sorted| > 0 && Readable(files, sorted)
    requires var g := EntrySpan(sorted);
      |layers| == |sorted| && PastedSoFar(files, sorted, g, tileW, tileH, layers) &&
      im.width == Extent(g.x0, g.x1, tileW) && im.height == Extent(g.y0, g.y1, tileH)
    requires forall i, j :: 0 <= i < im.width && 0 <= j < im.height ==> im.cols[i][j] == Composite(layers, Background, i, j)
    ensures im == Mosaic(PlaceAll(files, sorted), tileW, tileH)
  {
    var tiles := PlaceAll(files, sorted);
    SpanOfPlaced(files, sorted);
    PastedAll(files, sorted, tileW, tileH, layers);
    CanvasIsMosaic(im, tiles, tileW, tileH);
  }

  /** `stitcher_tiles(tiles_list_paths, stile_file_name)`, reading and writing `fs`. */
  method StitcherTiles(fs: FileSystem, tilesListPaths: seq<string>, stileFileName: string) returns (r: StitchOutcome)
    modifies fs
    ensures var plan := PlanStitch(old(fs.files), tilesListPaths);
      (r.Exit? <==> plan.NoTiles?) && (r.Failed? <==> plan.Broken?) && (r.Stitched? <==> plan.Ready?)
    ensures r.Stitched? ==> r.path == stileFileName
    ensures r.Stitched? ==> var plan := PlanStitch(old(fs.files), tilesListPaths);
      fs.files == old(fs.files)[stileFileName := Mosaic(plan.tiles, plan.tileW, plan.tileH)]
    ensures !r.Stitched? ==> fs.files == old(fs.files)
  {
    var filepaths := DropSentinels(tilesListPaths);
    var parsed := ParseAll(filepaths);
    if parsed.None? {
      return Failed;
    }
    var sorted := SortEntries(parsed.value);
    if |sorted| == 0 {
      return Exit;
    }
    if sorted[0].path !in fs.files {
      return Failed;
    }
    var drawn := DrawMosaic(fs.files, sorted);
    if drawn.None? {
      return Failed;
    }
    fs.Write(stileFileName, drawn.value);
    r := Stitched(stileFileName);
  }
}
