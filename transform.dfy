/**
 * Tile coverage of a bounding box (super_tiles/utils_transform.py): the
 * enumerated tiles become `"x-y-z"` ids, deduplicated in first-seen order;
 * the mosaic size is the number of distinct columns and rows times 256; the
 * coverage box is the bounds of every tile box's exterior ring.
 */
module Transform {
  import opened Common
  import opened Text

  /** A slippy-map tile: column, row and zoom. */
  datatype Tile = Tile(x: nat, y: nat, z: nat)

  datatype Point = Point(x: real, y: real)

  /** A bounds 4-tuple (min x, min y, max x, max y) in degrees. */
  datatype Box = Box(minX: real, minY: real, maxX: real, maxY: real)

  /** What `get_tiles_bounds` returns. */
  datatype Coverage = Coverage(tilesList: seq<string>, width: nat, height: nat, tilesBbox: Option<Box>)

  /** The three decimal fields of a tile id. */
  function TileFields(t: Tile): seq<string>
  {
    [NatToString(t.x), NatToString(t.y), NatToString(t.z)]
  }

  /** The tile id: `"-".join(str(n) for n in tile)`. */
  function TileId(t: Tile): string
  {
    Join(TileFields(t), '-')
  }

  /** Reading an id back: three `-`-separated, non-empty runs of digits. */
  function ParseTileId(s: string): (r: Option<Tile>)
    ensures r.Some? <==> var f := Split(s, '-');
      |f| == 3 && forall i :: 0 <= i < 3 ==> |f[i]| > 0 && AllDigits(f[i])
  {
    var f := Split(s, '-');
    if |f| == 3 && |f[0]| > 0 && |f[1]| > 0 && |f[2]| > 0 && AllDigits(f[0]) && AllDigits(f[1]) && AllDigits(f[2]) then
      Some(Tile(DigitsValue(f[0]), DigitsValue(f[1]), DigitsValue(f[2])))
    else None
  }

  /** A string that some tile's id spells. */
  ghost predicate IsTileId(s: string)
  {
    exists t :: s == TileId(t)
  }

  lemma FieldsHaveNoDash(t: Tile)
    ensures forall k :: 0 <= k < 3 ==> '-' !in TileFields(t)[k]
  {
    var f := TileFields(t);
    forall k | 0 <= k < 3
      ensures '-' !in f[k]
    {
      assert AllDigits(f[k]);
      assert forall i :: 0 <= i < |f[k]| ==> f[k][i] != '-';
    }
  }

  /** Splitting an id on `-` gives the decimal forms of x, y and z. */
  lemma SplitTileId(t: Tile)
    ensures Split(TileId(t), '-') == TileFields(t)
  {
    FieldsHaveNoDash(t);
    SplitJoin(TileFields(t), '-');
  }

  /** The id is lossless: it reads back as the same tile. */
  lemma TileIdRoundTrip(t: Tile)
    ensures ParseTileId(TileId(t)) == Some(t)
  {
    SplitTileId(t);
    DigitsValueOfNatToString(t.x);
    DigitsValueOfNatToString(t.y);
    DigitsValueOfNatToString(t.z);
  }

  /** Distinct tiles have distinct ids. */
  lemma TileIdInjective(a: Tile, b: Tile)
    ensures TileId(a) == TileId(b) ==> a == b
  {
    TileIdRoundTrip(a);
    TileIdRoundTrip(b);
  }

  /** `[uniqTiles.append(x) for x in s if x not in uniqTiles]`, as a specification. */
  function Dedup(s: seq<string>): seq<string>
    decreases |s|
  {
    if |s| == 0 then []
    else
      var d := Dedup(s[..|s| - 1]);
      if s[|s| - 1] in d then d else d + [s[|s| - 1]]
  }

  predicate NoDuplicates(s: seq<string>)
  {
    forall i, j :: 0 <= i < j < |s| ==> s[i] != s[j]
  }

  /** The position of the first occurrence of x in s. */
  function FirstIndex(s: seq<string>, x: string): (k: nat)
    requires x in s
    ensures k < |s| && s[k] == x
    ensures forall m :: 0 <= m < k ==> s[m] != x
    decreases |s|
  {
    if x in s[..|s| - 1] then FirstIndex(s[..|s| - 1], x) else |s| - 1
  }

  /** The deduplicated list holds exactly the ids of the input, each once. */
  lemma {:induction false} DedupElements(s: seq<string>)
    ensures NoDuplicates(Dedup(s))
    ensures forall x :: x in Dedup(s) <==> x in s
    decreases |s|
  {
    if |s| > 0 {
      DedupElements(s[..|s| - 1]);
      assert s == s[..|s| - 1] + [s[|s| - 1]];
    }
  }

  /**
   * The deduplicated list keeps first-occurrence order: it is the
   * subsequence of s at the first occurrences, which strictly increase.
   */
  lemma {:induction false} DedupFirstSeenOrder(s: seq<string>)
    ensures forall i :: 0 <= i < |Dedup(s)| ==> Dedup(s)[i] in s
    ensures forall i, j :: 0 <= i < j < |Dedup(s)| ==> FirstIndex(s, Dedup(s)[i]) < FirstIndex(s, Dedup(s)[j])
    decreases |s|
  {
    if |s| > 0 {
      var p := s[..|s| - 1];
      var last := s[|s| - 1];
      DedupFirstSeenOrder(p);
      DedupElements(p);
      var d := Dedup(s);
      assert forall x :: x in p ==> x in s;
      forall i | 0 <= i < |Dedup(p)|
        ensures FirstIndex(s, Dedup(p)[i]) == FirstIndex(p, Dedup(p)[i])
      {
      }
      if last !in Dedup(p) {
        assert FirstIndex(s, last) == |s| - 1;
      }
    }
  }

  /** Exterior ring of shapely's `box(minx, miny, maxx, maxy)`: counter-clockwise from (maxx, miny), closed. */
  function BoxRing(b: Box): seq<Point>
  {
    [Point(b.maxX, b.minY), Point(b.maxX, b.maxY), Point(b.minX, b.maxY), Point(b.minX, b.minY), Point(b.maxX, b.minY)]
  }

  /** The exterior coordinates of every polygon, polygon by polygon. */
  function RingPoints(polys: seq<Box>): seq<Point>
    decreases |polys|
  {
    if |polys| == 0 then [] else RingPoints(polys[..|polys| - 1]) + BoxRing(polys[|polys| - 1])
  }

  function Min(a: real, b: real): real { if a <= b then a else b }

  function Max(a: real, b: real): real { if a >= b then a else b }

  /** Running min/max of the coordinates of a non-empty point list. */
  function Hull(ps: seq<Point>): Box
    requires |ps| > 0
    decreases |ps|
  {
    var p := ps[|ps| - 1];
    if |ps| == 1 then Box(p.x, p.y, p.x, p.y)
    else
      var b := Hull(ps[..|ps| - 1]);
      Box(Min(b.minX, p.x), Min(b.minY, p.y), Max(b.maxX, p.x), Max(b.maxY, p.y))
  }

  /** `LineString(points).bounds`; `None` for the empty geometry no points make. */
  function BoundsOf(ps: seq<Point>): Option<Box>
  {
    if |ps| == 0 then None else Some(Hull(ps))
  }

  predicate Encloses(b: Box, p: Point)
  {
    b.minX <= p.x <= b.maxX && b.minY <= p.y <= b.maxY
  }

  /** The hull encloses every point. */
  lemma {:induction false} HullEncloses(ps: seq<Point>)
    requires |ps| > 0
    ensures forall k :: 0 <= k < |ps| ==> Encloses(Hull(ps), ps[k])
    decreases |ps|
  {
    if |ps| > 1 {
      var q := ps[..|ps| - 1];
      HullEncloses(q);
      forall k | 0 <= k < |ps|
        ensures Encloses(Hull(ps), ps[k])
      {
        if k < |q| {
          assert ps[k] == q[k] && Encloses(Hull(q), q[k]);
        }
      }
    }
  }

  /** Each of the hull's four sides is attained by a point. */
  lemma {:induction false} HullAttained(ps: seq<Point>)
    requires |ps| > 0
    ensures exists k :: 0 <= k < |ps| && ps[k].x == Hull(ps).minX
    ensures exists k :: 0 <= k < |ps| && ps[k].y == Hull(ps).minY
    ensures exists k :: 0 <= k < |ps| && ps[k].x == Hull(ps).maxX
    ensures exists k :: 0 <= k < |ps| && ps[k].y == Hull(ps).maxY
    decreases |ps|
  {
    if |ps| > 1 {
      var q := ps[..|ps| - 1];
      HullAttained(q);
      var b := Hull(q);
      var p := ps[|ps| - 1];
      var k0 :| 0 <= k0 < |q| && q[k0].x == b.minX;
      var k1 :| 0 <= k1 < |q| && q[k1].y == b.minY;
      var k2 :| 0 <= k2 < |q| && q[k2].x == b.maxX;
      var k3 :| 0 <= k3 < |q| && q[k3].y == b.maxY;
      var n := |ps| - 1;
      assert ps[k0] == q[k0] && ps[k1] == q[k1] && ps[k2] == q[k2] && ps[k3] == q[k3] && ps[n] == p;
      var h := Hull(ps);
      if b.minX <= p.x { assert ps[k0].x == h.minX; } else { assert ps[n].x == h.minX; }
      if b.minY <= p.y { assert ps[k1].y == h.minY; } else { assert ps[n].y == h.minY; }
      if b.maxX >= p.x { assert ps[k2].x == h.maxX; } else { assert ps[n].x == h.maxX; }
      if b.maxY >= p.y { assert ps[k3].y == h.maxY; } else { assert ps[n].y == h.maxY; }
    } else {
      assert ps[0].x == Hull(ps).minX && ps[0].y == Hull(ps).minY;
      assert ps[0].x == Hull(ps).maxX && ps[0].y == Hull(ps).maxY;
    }
  }

  /** The bounds depend only on which points occur: not on their order, nor on repetitions. */
  lemma HullIgnoresOrder(ps: seq<Point>, qs: seq<Point>)
    requires |ps| > 0 && |qs| > 0
    requires forall p :: p in ps <==> p in qs
    ensures Hull(ps) == Hull(qs)
  {
    HullEncloses(ps);
    HullAttained(ps);
    HullEncloses(qs);
    HullAttained(qs);
    var a, b := Hull(ps), Hull(qs);
    var i :| 0 <= i < |ps| && ps[i].x == a.minX;
    var j :| 0 <= j < |qs| && qs[j].x == b.minX;
    assert ps[i] in qs && qs[j] in ps;
    var i1 :| 0 <= i1 < |ps| && ps[i1].y == a.minY;
    var j1 :| 0 <= j1 < |qs| && qs[j1].y == b.minY;
    assert ps[i1] in qs && qs[j1] in ps;
    var i2 :| 0 <= i2 < |ps| && ps[i2].x == a.maxX;
    var j2 :| 0 <= j2 < |qs| && qs[j2].x == b.maxX;
    assert ps[i2] in qs && qs[j2] in ps;
    var i3 :| 0 <= i3 < |ps| && ps[i3].y == a.maxY;
    var j3 :| 0 <= j3 < |qs| && qs[j3].y == b.maxY;
    assert ps[i3] in qs && qs[j3] in ps;
  }

  /** A point is among the ring points exactly when it is on the ring of one of the polygons. */
  lemma {:induction false} RingPointsMembers(polys: seq<Box>)
    ensures forall p :: p in RingPoints(polys) <==> exists k :: 0 <= k < |polys| && p in BoxRing(polys[k])
    ensures |RingPoints(polys)| == 5 * |polys|
    decreases |polys|
  {
    if |polys| > 0 {
      var q := polys[..|polys| - 1];
      RingPointsMembers(q);
      forall p | p in RingPoints(polys)
        ensures exists k :: 0 <= k < |polys| && p in BoxRing(polys[k])
      {
        if p in RingPoints(q) {
          var k :| 0 <= k < |q| && p in BoxRing(q[k]);
          assert polys[k] == q[k];
        } else {
          assert p in BoxRing(polys[|polys| - 1]);
        }
      }
      forall p, k | 0 <= k < |polys| && p in BoxRing(polys[k])
        ensures p in RingPoints(polys)
      {
        if k < |q| {
          assert q[k] == polys[k];
        }
      }
    }
  }

  /** `bbox_geometries` uses every polygon, and the order in which the polygons come does not matter. */
  lemma PolygonOrderIrrelevant(ps: seq<Box>, qs: seq<Box>)
    requires forall b :: b in ps <==> b in qs
    ensures BoundsOf(RingPoints(ps)) == BoundsOf(RingPoints(qs))
  {
    RingPointsMembers(ps);
    RingPointsMembers(qs);
    var a, b := RingPoints(ps), RingPoints(qs);
    forall p
      ensures p in a <==> p in b
    {
      if p in a {
        var k :| 0 <= k < |ps| && p in BoxRing(ps[k]);
        assert ps[k] in ps;
        var m :| 0 <= m < |qs| && qs[m] == ps[k];
      }
      if p in b {
        var k :| 0 <= k < |qs| && p in BoxRing(qs[k]);
        assert qs[k] in qs;
        var m :| 0 <= m < |ps| && ps[m] == qs[k];
      }
    }
    if |ps| > 0 {
      assert ps[0] in qs;
    }
    if |qs| > 0 {
      assert qs[0] in ps;
    }
    if |ps| > 0 {
      HullIgnoresOrder(a, b);
    }
  }

  /** The ids of the enumerated tiles, in enumeration order (`listTiles`). */
  function Ids(ts: seq<Tile>): seq<string>
  {
    seq(|ts|, k requires 0 <= k < |ts| => TileId(ts[k]))
  }

  /** The tile boxes, in enumeration order (`polygon_geoms`). */
  function TileBoxes(ts: seq<Tile>, bounds: Tile -> Box): seq<Box>
  {
    seq(|ts|, k requires 0 <= k < |ts| => bounds(ts[k]))
  }

  function Columns(ts: seq<Tile>): set<nat> { set t | t in ts :: t.x }

  function Rows(ts: seq<Tile>): set<nat> { set t | t in ts :: t.y }

  /** What `get_tiles_bounds` computes for the tiles `mercantile.tiles` yields, `bounds` being `mercantile.bounds`. */
  function CoverageOf(ts: seq<Tile>, bounds: Tile -> Box): Coverage
  {
    Coverage(Dedup(Ids(ts)), |Columns(ts)| * 256, |Rows(ts)| * 256, BoundsOf(RingPoints(TileBoxes(ts, bounds))))
  }

  /** The coverage's tile list: no id twice, exactly the ids of the enumerated tiles, in first-seen order. */
  lemma CoverageTilesList(ts: seq<Tile>, bounds: Tile -> Box)
    ensures NoDuplicates(CoverageOf(ts, bounds).tilesList)
    ensures forall t :: TileId(t) in CoverageOf(ts, bounds).tilesList <==> t in ts
    ensures forall i :: 0 <= i < |CoverageOf(ts, bounds).tilesList| ==> CoverageOf(ts, bounds).tilesList[i] in Ids(ts)
    ensures forall i, j :: 0 <= i < j < |CoverageOf(ts, bounds).tilesList| ==>
      FirstIndex(Ids(ts), CoverageOf(ts, bounds).tilesList[i]) < FirstIndex(Ids(ts), CoverageOf(ts, bounds).tilesList[j])
  {
    var ids := Ids(ts);
    DedupElements(ids);
    DedupFirstSeenOrder(ids);
    forall t
      ensures TileId(t) in ids <==> t in ts
    {
      if TileId(t) in ids {
        var k :| 0 <= k < |ids| && ids[k] == TileId(t);
        TileIdInjective(t, ts[k]);
      }
      if t in ts {
        var k :| 0 <= k < |ts| && ts[k] == t;
        assert ids[k] == TileId(t);
      }
    }
  }

  /** Width and height are multiples of 256, and at least 256 once a tile is enumerated. */
  lemma CoverageSize(ts: seq<Tile>, bounds: Tile -> Box)
    ensures CoverageOf(ts, bounds).width % 256 == 0 && CoverageOf(ts, bounds).height % 256 == 0
    ensures |ts| > 0 ==> CoverageOf(ts, bounds).width >= 256 && CoverageOf(ts, bounds).height >= 256
    ensures CoverageOf(ts, bounds).width <= 256 * |ts| && CoverageOf(ts, bounds).height <= 256 * |ts|
  {
    if |ts| > 0 {
      assert ts[0].x in Columns(ts) && ts[0].y in Rows(ts);
    }
    DistinctAtMostLength(ts);
  }

  lemma {:induction false} DistinctAtMostLength(ts: seq<Tile>)
    ensures |Columns(ts)| <= |ts| && |Rows(ts)| <= |ts|
    decreases |ts|
  {
    if |ts| > 0 {
      var q := ts[..|ts| - 1];
      DistinctAtMostLength(q);
      assert ts == q + [ts[|ts| - 1]];
      assert Columns(ts) == Columns(q) + {ts[|ts| - 1].x};
      assert Rows(ts) == Rows(q) + {ts[|ts| - 1].y};
    }
  }

  /** The coverage box encloses every corner of every tile box. */
  lemma CoverageBoxEnclosesTiles(ts: seq<Tile>, bounds: Tile -> Box, k: nat)
    requires k < |ts|
    ensures CoverageOf(ts, bounds).tilesBbox.Some?
    ensures forall p :: p in BoxRing(bounds(ts[k])) ==> Encloses(CoverageOf(ts, bounds).tilesBbox.value, p)
  {
    var polys := TileBoxes(ts, bounds);
    RingPointsMembers(polys);
    var ps := RingPoints(polys);
    HullEncloses(ps);
    HullAttained(ps);
    forall p | p in BoxRing(bounds(ts[k]))
      ensures Encloses(Hull(ps), p)
    {
      assert p in BoxRing(polys[k]);
      assert p in ps;
      var i :| 0 <= i < |ps| && ps[i] == p;
    }
  }

  /** Every ring point belongs to the box of some enumerated tile. */
  lemma RingPointOfTile(ts: seq<Tile>, bounds: Tile -> Box, i: nat)
    requires i < |RingPoints(TileBoxes(ts, bounds))|
    ensures exists k :: 0 <= k < |ts| && RingPoints(TileBoxes(ts, bounds))[i] in BoxRing(bounds(ts[k]))
  {
    var polys := TileBoxes(ts, bounds);
    RingPointsMembers(polys);
    var ps := RingPoints(polys);
    assert ps[i] in ps;
    var k :| 0 <= k < |polys| && ps[i] in BoxRing(polys[k]);
  }

  /**
   * Each side of the coverage box is attained: for boxes with min below max
   * (as `mercantile.bounds` gives them), each side is the side of a tile box.
   */
  lemma CoverageBoxAttained(ts: seq<Tile>, bounds: Tile -> Box)
    requires |ts| > 0
    requires forall t :: t in ts ==> bounds(t).minX <= bounds(t).maxX && bounds(t).minY <= bounds(t).maxY
    ensures exists k :: 0 <= k < |ts| && bounds(ts[k]).minX == CoverageOf(ts, bounds).tilesBbox.value.minX
    ensures exists k :: 0 <= k < |ts| && bounds(ts[k]).minY == CoverageOf(ts, bounds).tilesBbox.value.minY
    ensures exists k :: 0 <= k < |ts| && bounds(ts[k]).maxX == CoverageOf(ts, bounds).tilesBbox.value.maxX
    ensures exists k :: 0 <= k < |ts| && bounds(ts[k]).maxY == CoverageOf(ts, bounds).tilesBbox.value.maxY
  {
    var ps := RingPoints(TileBoxes(ts, bounds));
    RingPointsMembers(TileBoxes(ts, bounds));
    HullEncloses(ps);
    HullAttained(ps);
    var b := Hull(ps);
    var i0 :| 0 <= i0 < |ps| && ps[i0].x == b.minX;
    var i1 :| 0 <= i1 < |ps| && ps[i1].y == b.minY;
    var i2 :| 0 <= i2 < |ps| && ps[i2].x == b.maxX;
    var i3 :| 0 <= i3 < |ps| && ps[i3].y == b.maxY;
    SideAttained(ts, bounds, i0, 0);
    SideAttained(ts, bounds, i1, 1);
    SideAttained(ts, bounds, i2, 2);
    SideAttained(ts, bounds, i3, 3);
  }

  function Side(b: Box, side: nat): real
  {
    if side == 0 then b.minX else if side == 1 then b.minY else if side == 2 then b.maxX else b.maxY
  }

  function Coord(p: Point, side: nat): real
  {
    if side % 2 == 0 then p.x else p.y
  }

  lemma SideAttained(ts: seq<Tile>, bounds: Tile -> Box, i: nat, side: nat)
    requires |ts| > 0 && side < 4
    requires forall t :: t in ts ==> bounds(t).minX <= bounds(t).maxX && bounds(t).minY <= bounds(t).maxY
    requires i < |RingPoints(TileBoxes(ts, bounds))|
    requires Coord(RingPoints(TileBoxes(ts, bounds))[i], side) == Side(CoverageOf(ts, bounds).tilesBbox.value, side)
    ensures exists k :: 0 <= k < |ts| && Side(bounds(ts[k]), side) == Side(CoverageOf(ts, bounds).tilesBbox.value, side)
  {
    RingPointOfTile(ts, bounds, i);
    var p := RingPoints(TileBoxes(ts, bounds))[i];
    var k :| 0 <= k < |ts| && p in BoxRing(bounds(ts[k]));
    CoverageBoxEnclosesTiles(ts, bounds, k);
    var r := BoxRing(bounds(ts[k]));
    assert r[1] in r && r[3] in r;
    assert ts[k] in ts;
  }

  /** `bbox_geometries`: collect the exterior coordinates of every polygon, then take their bounds. */
  method BboxGeometries(polys: seq<Box>) returns (b: Option<Box>)
    ensures b == BoundsOf(RingPoints(polys))
  {
    var points: seq<Point> := [];
    for i := 0 to |polys|
      invariant points == RingPoints(polys[..i])
    {
      var ring := BoxRing(polys[i]);
      for k := 0 to |ring|
        invariant points == RingPoints(polys[..i]) + ring[..k]
      {
        points := points + [ring[k]];
      }
      assert polys[..i + 1][..i] == polys[..i];
    }
    assert polys[..|polys|] == polys;
    b := BoundsOf(points);
  }

  lemma DistinctColumns(tiles: seq<Tile>, tx: seq<nat>)
    requires |tx| == |tiles| && forall k :: 0 <= k < |tx| ==> tx[k] == tiles[k].x
    ensures (set v | v in tx) == Columns(tiles)
  {
    forall v | v in tx ensures v in Columns(tiles) {
      var k :| 0 <= k < |tx| && tx[k] == v;
      assert tiles[k] in tiles;
    }
    forall v | v in Columns(tiles) ensures v in tx {
      var t :| t in tiles && t.x == v;
      var k :| 0 <= k < |tiles| && tiles[k] == t;
      assert tx[k] == v;
    }
  }

  lemma DistinctRows(tiles: seq<Tile>, ty: seq<nat>)
    requires |ty| == |tiles| && forall k :: 0 <= k < |ty| ==> ty[k] == tiles[k].y
    ensures (set v | v in ty) == Rows(tiles)
  {
    forall v | v in ty ensures v in Rows(tiles) {
      var k :| 0 <= k < |ty| && ty[k] == v;
      assert tiles[k] in tiles;
    }
    forall v | v in Rows(tiles) ensures v in ty {
      var t :| t in tiles && t.y == v;
      var k :| 0 <= k < |tiles| && tiles[k] == t;
      assert ty[k] == v;
    }
  }

  /** `[uniqTiles.append(x) for x in listTiles if x not in uniqTiles]`. */
  method UniqueInOrder(listTiles: seq<string>) returns (uniqTiles: seq<string>)
    ensures uniqTiles == Dedup(listTiles)
  {
    uniqTiles := [];
    for i := 0 to |listTiles|
      invariant uniqTiles == Dedup(listTiles[..i])
    {
      assert listTiles[..i + 1][..i] == listTiles[..i];
      if listTiles[i] !in uniqTiles {
        uniqTiles := uniqTiles + [listTiles[i]];
      }
    }
    assert listTiles[..|listTiles|] == listTiles;
  }

  /** `get_tiles_bounds`, on the tiles `mercantile.tiles` enumerated and with `bounds` for `mercantile.bounds`. */
  method GetTilesBounds(tiles: seq<Tile>, bounds: Tile -> Box) returns (c: Coverage)
    ensures c == CoverageOf(tiles, bounds)
  {
    var listTiles: seq<string> := [];
    var tx: seq<nat> := [];
    var ty: seq<nat> := [];
    var polygonGeoms: seq<Box> := [];
    for i := 0 to |tiles|
      invariant |listTiles| == |tx| == |ty| == |polygonGeoms| == i
      invariant forall k :: 0 <= k < i ==> listTiles[k] == TileId(tiles[k])
      invariant forall k :: 0 <= k < i ==> tx[k] == tiles[k].x && ty[k] == tiles[k].y
      invariant forall k :: 0 <= k < i ==> polygonGeoms[k] == bounds(tiles[k])
    {
      var tile := tiles[i];
      polygonGeoms := polygonGeoms + [bounds(tile)];
      tx := tx + [tile.x];
      ty := ty + [tile.y];
      listTiles := listTiles + [TileId(tile)];
    }
    assert listTiles == Ids(tiles);
    assert polygonGeoms == TileBoxes(tiles, bounds);
    var boundsGeoms := BboxGeometries(polygonGeoms);
    var xs := set v | v in tx;
    var ys := set v | v in ty;
    DistinctColumns(tiles, tx);
    DistinctRows(tiles, ty);
    var tileWidth := |xs| * 256;
    var tileHeight := |ys| * 256;
    var uniqTiles := UniqueInOrder(listTiles);
    c := Coverage(uniqTiles, tileWidth, tileHeight, boundsGeoms);
  }
}
