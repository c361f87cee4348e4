/**
 * The pipeline of super_tiles/main.py. Each feature of a GeoJSON
 * collection is first annotated with the tiles that cover a buffer around
 * its centroid (`get_tiles_coverage`); then the tiles of each feature are
 * downloaded and stitched into one supertile, whose path is recorded on
 * the feature as `stile` (`build_super_tiles`).
 *
 * A feature is the object `json.load` makes of it: its `geometry` and its
 * `properties` are updated in place. The per-feature steps run inside
 * joblib workers: a worker unpickles its feature into a fresh object,
 * updates that object in place and pickles it back. The batch operations
 * below therefore hand feature values to the workers and collect values
 * from them, running the workers one after the other, in input order.
 */
module Orchestrate {
  import opened Common
  import opened Text
  import opened Raster
  import opened Storage
  import Transform
  import Stitch
  import TileFetch

  // ---------------------------------------------------------------------
  // The zoom table

  /** `zoom_distances`: the buffer distance, in metres, around a feature at each zoom level. */
  const ZoomDistances: map<string, nat> := map[
    "1" := 10000000, "2" := 5000000, "3" := 2500000, "4" := 1200000, "5" := 600000,
    "6" := 300000, "7" := 150000, "8" := 75000, "9" := 42000, "10" := 20000,
    "11" := 10000, "12" := 5000, "13" := 2500, "14" := 1250, "15" := 700,
    "16" := 400, "17" := 200, "18" := 100, "19" := 50, "20" := 20, "21" := 10]

  /** `zoom_distances[str(zoom)]`; `None` is the `KeyError`. */
  function ZoomDistance(zoom: int): Option<nat>
  {
    var key := IntToString(zoom);
    if key in ZoomDistances then Some(ZoomDistances[key]) else None
  }

  /** The keys of the table, from the lowest zoom level to the highest. */
  ghost const Levels: seq<string> := ["1", "2", "3", "4", "5", "6", "7", "8", "9", "10", "11",
                                      "12", "13", "14", "15", "16", "17", "18", "19", "20", "21"]

  lemma DecimalOfLevel(zoom: int)
    requires 1 <= zoom <= 21
    ensures IntToString(zoom) == if zoom < 10 then [DigitChar(zoom)] else [DigitChar(zoom / 10), DigitChar(zoom % 10)]
  {
    if zoom >= 10 {
      assert NatToString(zoom / 10) == [DigitChar(zoom / 10)];
    }
  }

  lemma LevelName(i: nat)
    requires i < 21
    ensures Levels[i] == IntToString(i + 1)
  {
    DecimalOfLevel(i + 1);
  }

  lemma LevelsDecrease(i: nat)
    requires i < 20
    ensures Levels[i] in ZoomDistances && Levels[i + 1] in ZoomDistances
    ensures ZoomDistances[Levels[i]] > ZoomDistances[Levels[i + 1]]
  {
  }

  /** No integer outside 1..21 is written like a key of the table. */
  lemma NoOtherLevel(zoom: int)
    requires zoom < 1 || zoom > 21
    ensures IntToString(zoom) !in ZoomDistances
  {
    IntRoundTrip(zoom);
  }

  /** The lookup succeeds exactly for the zoom levels 1 to 21. */
  lemma ZoomLevels(zoom: int)
    ensures ZoomDistance(zoom).Some? <==> 1 <= zoom <= 21
  {
    if 1 <= zoom <= 21 {
      DecimalOfLevel(zoom);
    } else {
      NoOtherLevel(zoom);
    }
  }

  lemma ZoomStep(zoom: int)
    requires 1 <= zoom < 21
    ensures ZoomDistance(zoom).Some? && ZoomDistance(zoom + 1).Some?
    ensures ZoomDistance(zoom).value > ZoomDistance(zoom + 1).value
  {
    LevelName(zoom - 1);
    LevelName(zoom);
    LevelsDecrease(zoom - 1);
  }

  /** A higher zoom level has a strictly smaller buffer distance. */
  lemma {:induction false} ZoomDistancesDecrease(a: int, b: int)
    requires 1 <= a < b <= 21
    ensures ZoomDistance(a).Some? && ZoomDistance(b).Some?
    ensures ZoomDistance(a).value > ZoomDistance(b).value
    decreases b - a
  {
    ZoomStep(b - 1);
    if a < b - 1 {
      ZoomDistancesDecrease(a, b - 1);
    }
  }

  // ---------------------------------------------------------------------
  // Features

  /**
   * A GeoJSON geometry: the polygon `mapping(box(...))` gives (one ring, the
   * box's exterior), or any other geometry, kept as it was read.
   */
  datatype Geometry = Polygon(rings: seq<seq<Transform.Point>>) | OtherGeometry(json: string)

  /**
   * A property value: a string, a list of strings, a bounds tuple, the empty
   * tuple that the bounds of an empty collection are, or any other JSON value.
   */
  datatype Value = Str(s: string) | StrList(items: seq<string>) | Bounds(box: Transform.Box) | NoBounds | Json(raw: string)

  const TilesList := "tiles_list"
  const TilesBbox := "tiles_bbox"
  const Stile := "stile"

  /** One GeoJSON feature, updated in place. */
  class Feature {
    var geometry: Geometry
    var properties: map<string, Value>

    constructor (geometry: Geometry, properties: map<string, Value>)
      ensures this.geometry == geometry && this.properties == properties
    {
      this.geometry := geometry;
      this.properties := properties;
    }
  }

  /** What a feature holds at one moment. */
  datatype FeatureValue = FeatureValue(geometry: Geometry, properties: map<string, Value>)

  function ValueOf(f: Feature): FeatureValue
    reads f
  {
    FeatureValue(f.geometry, f.properties)
  }


  // ---------------------------------------------------------------------
  // Tile coverage

  /**
   * The geometry library calls, which are floating-point work in shapely,
   * pyproj and mercantile.
   */
  datatype Geo = Geo(
    centroid: Geometry -> Option<Transform.Point>,      // `shape(g).centroid`; None when shapely rejects g
    tileCentroid: (Transform.Point, int) -> Transform.Point, // `tile_centroid(point, zoom)`
    buffer: (Transform.Point, nat) -> Transform.Box,    // `generate_buffer(point, distance)`
    tiles: (Transform.Box, int) -> seq<Transform.Tile>, // `mercantile.tiles(*bbox, [zoom], truncate=True)`
    bounds: Transform.Tile -> Transform.Box)            // `mercantile.bounds(tile)`

  /** Why `get_tile_coverage` raises. */
  datatype CoverageError =
    | BadGeometry    // `shape(...)` or its centroid raises
    | UnknownZoom    // `zoom_distances[str(zoom)]` raises `KeyError`
    | EmptyCoverage  // no tile enumerated: `box(*())` raises `TypeError`

  /** The coverage of the tiles around the feature's centroid, or the error raised before it is computed. */
  function CoverageFor(geometry: Geometry, zoom: int, geo: Geo): Result<Transform.Coverage, CoverageError>
  {
    match geo.centroid(geometry)
    case None => Err(BadGeometry)
    case Some(c) =>
      match ZoomDistance(zoom)
      case None => Err(UnknownZoom)
      case Some(d) => Ok(Transform.CoverageOf(TilesAround(c, zoom, d, geo), geo.bounds))
  }

  /**
   * The tiles at `zoom` that `mercantile` enumerates in the square buffer of
   * `distance` metres around the centroid of the child tile holding `centroid`.
   */
  function TilesAround(centroid: Transform.Point, zoom: int, distance: nat, geo: Geo): seq<Transform.Tile>
  {
    geo.tiles(geo.buffer(geo.tileCentroid(centroid, zoom + 1), distance), zoom)
  }

  function BboxValue(b: Option<Transform.Box>): Value
  {
    if b.Some? then Bounds(b.value) else NoBounds
  }

  /** `mapping(box(*bbox))`. */
  function BoxPolygon(b: Transform.Box): Geometry
  {
    Polygon([Transform.BoxRing(b)])
  }

  /** The properties once the coverage's tile list and bounds are recorded. */
  function WithCoverage(properties: map<string, Value>, c: Transform.Coverage): map<string, Value>
  {
    properties[TilesList := StrList(c.tilesList)][TilesBbox := BboxValue(c.tilesBbox)]
  }

  /** The feature `get_tile_coverage` returns, or the error it raises. */
  function Annotate(v: FeatureValue, zoom: int, geo: Geo): Result<FeatureValue, CoverageError>
  {
    match CoverageFor(v.geometry, zoom, geo)
    case Err(e) => Err(e)
    case Ok(c) =>
      if c.tilesBbox.None? then Err(EmptyCoverage)
      else Ok(FeatureValue(BoxPolygon(c.tilesBbox.value), WithCoverage(v.properties, c)))
  }

  /**
   * The inner `get_tile_coverage(feature, zoom)`. On `EmptyCoverage` the
   * properties have already been updated when `box` raises.
   */
  method GetTileCoverage(feature: Feature, zoom: int, geo: Geo) returns (err: Option<CoverageError>)
    modifies feature
    ensures var a := Annotate(old(ValueOf(feature)), zoom, geo);
      (err.None? <==> a.Ok?) && (a.Ok? ==> ValueOf(feature) == a.value) && (a.Err? ==> err == Some(a.error))
    ensures var c := CoverageFor(old(feature.geometry), zoom, geo);
      (c.Err? ==> ValueOf(feature) == old(ValueOf(feature))) &&
      (c.Ok? && err.Some? ==>
        feature.geometry == old(feature.geometry) && feature.properties == WithCoverage(old(feature.properties), c.value))
  {
    var centroid := geo.centroid(feature.geometry);
    if centroid.None? {
      return Some(BadGeometry);
    }
    // Get the centroid of the child tile
    var centroidFixed := geo.tileCentroid(centroid.value, zoom + 1);
    var distance := ZoomDistance(zoom);
    if distance.None? {
      return Some(UnknownZoom);
    }
    var bbox := geo.buffer(centroidFixed, distance.value);
    var objsTile := Transform.GetTilesBounds(geo.tiles(bbox, zoom), geo.bounds);
    feature.properties := feature.properties[TilesList := StrList(objsTile.tilesList)];
    feature.properties := feature.properties[TilesBbox := BboxValue(objsTile.tilesBbox)];
    if objsTile.tilesBbox.None? {
      return Some(EmptyCoverage);
    }
    feature.geometry := BoxPolygon(objsTile.tilesBbox.value);
    err := None;
  }

  /**
   * An annotated feature carries the coverage's tile list and bounds, its
   * geometry is the box of those bounds, and every other property is as it was.
   */
  lemma AnnotateRecordsCoverage(v: FeatureValue, zoom: int, geo: Geo)
    requires Annotate(v, zoom, geo).Ok?
    ensures var a := Annotate(v, zoom, geo).value;
      var c := CoverageFor(v.geometry, zoom, geo).value;
      c.tilesBbox.Some? &&
      a.properties[TilesList] == StrList(c.tilesList) &&
      a.properties[TilesBbox] == Bounds(c.tilesBbox.value) &&
      a.geometry == Polygon([Transform.BoxRing(c.tilesBbox.value)]) &&
      (forall key :: key != TilesList && key != TilesBbox ==>
        (key in a.properties <==> key in v.properties) &&
        (key in v.properties ==> a.properties[key] == v.properties[key]))
  {
  }

  /**
   * The annotation fails exactly when the geometry is rejected, the zoom is
   * not a level of the table, or no tile is enumerated around the centroid.
   */
  lemma AnnotateFails(v: FeatureValue, zoom: int, geo: Geo)
    ensures Annotate(v, zoom, geo).Err? <==>
      geo.centroid(v.geometry).None? || !(1 <= zoom <= 21) ||
      (ZoomDistance(zoom).Some? && |TilesAround(geo.centroid(v.geometry).value, zoom, ZoomDistance(zoom).value, geo)| == 0)
  {
    ZoomLevels(zoom);
    if geo.centroid(v.geometry).Some? && 1 <= zoom <= 21 {
      var ts := TilesAround(geo.centroid(v.geometry).value, zoom, ZoomDistance(zoom).value, geo);
      if |ts| > 0 {
        Transform.CoverageBoxEnclosesTiles(ts, geo.bounds, 0);
      }
    }
  }

  /** The tile list recorded on an annotated feature: distinct tile ids, exactly those of the enumerated tiles, at least one. */
  lemma AnnotatedTiles(v: FeatureValue, zoom: int, geo: Geo)
    requires Annotate(v, zoom, geo).Ok?
    ensures geo.centroid(v.geometry).Some? && ZoomDistance(zoom).Some?
    ensures var tl := Annotate(v, zoom, geo).value.properties[TilesList];
      var ts := TilesAround(geo.centroid(v.geometry).value, zoom, ZoomDistance(zoom).value, geo);
      tl.StrList? && |tl.items| > 0 && Transform.NoDuplicates(tl.items) &&
      (forall t :: Transform.TileId(t) in tl.items <==> t in ts) &&
      (forall k :: 0 <= k < |tl.items| ==> Transform.IsTileId(tl.items[k]))
  {
    var ts := TilesAround(geo.centroid(v.geometry).value, zoom, ZoomDistance(zoom).value, geo);
    AnnotateFails(v, zoom, geo);
    Transform.CoverageTilesList(ts, geo.bounds);
    var items := Transform.CoverageOf(ts, geo.bounds).tilesList;
    assert Transform.TileId(ts[0]) in items;
    forall k | 0 <= k < |items|
      ensures Transform.IsTileId(items[k])
    {
      var ids := Transform.Ids(ts);
      assert items[k] in ids;
      var m :| 0 <= m < |ids| && ids[m] == items[k];
      assert items[k] == Transform.TileId(ts[m]);
    }
  }

  /** The result of annotating each feature on its own. */
  function AnnotateEach(vs: seq<FeatureValue>, zoom: int, geo: Geo): (rs: seq<Result<FeatureValue, CoverageError>>)
    ensures |rs| == |vs|
    ensures forall k :: 0 <= k < |vs| ==> rs[k] == Annotate(vs[k], zoom, geo)
  {
    seq(|vs|, k requires 0 <= k < |vs| => Annotate(vs[k], zoom, geo))
  }

  /**
   * What joblib's `Parallel` returns for the results of its calls, taken in
   * input order: every value, or the first error, which it raises.
   */
  function Collect(rs: seq<Result<FeatureValue, CoverageError>>): (r: Result<seq<FeatureValue>, CoverageError>)
    ensures r.Ok? ==> |r.value| == |rs|
    decreases |rs|
  {
    if |rs| == 0 then Ok([])
    else
      match Collect(rs[..|rs| - 1])
      case Err(e) => Err(e)
      case Ok(done) =>
        match rs[|rs| - 1]
        case Err(e) => Err(e)
        case Ok(a) => Ok(done + [a])
  }

  /** Collecting succeeds exactly when every call succeeded. */
  lemma {:induction false} CollectSucceeds(rs: seq<Result<FeatureValue, CoverageError>>)
    ensures Collect(rs).Ok? <==> forall k :: 0 <= k < |rs| ==> rs[k].Ok?
    decreases |rs|
  {
    if |rs| > 0 {
      var init := rs[..|rs| - 1];
      CollectSucceeds(init);
      assert forall k :: 0 <= k < |init| ==> init[k] == rs[k];
    }
  }

  /** A successful collection holds each call's value at the call's position. */
  lemma {:induction false} CollectEach(rs: seq<Result<FeatureValue, CoverageError>>, k: nat)
    requires k < |rs| && Collect(rs).Ok?
    ensures rs[k].Ok? && Collect(rs).value[k] == rs[k].value
    decreases |rs|
  {
    var init := rs[..|rs| - 1];
    if k < |init| {
      CollectEach(init, k);
      assert init[k] == rs[k];
    }
  }

  lemma CollectOneMore(rs: seq<Result<FeatureValue, CoverageError>>, k: nat)
    requires k < |rs|
    ensures Collect(rs[..k + 1]) ==
      match Collect(rs[..k])
      case Err(e) => Err(e)
      case Ok(done) => (match rs[k] case Err(e) => Err(e) case Ok(a) => Ok(done + [a]))
  {
    assert rs[..k + 1][..k] == rs[..k];
  }

  lemma {:induction false} CollectFailureSticks(rs: seq<Result<FeatureValue, CoverageError>>, k: nat)
    requires k <= |rs|
    requires Collect(rs[..k]).Err?
    ensures Collect(rs) == Collect(rs[..k])
    decreases |rs| - k
  {
    if k < |rs| {
      CollectOneMore(rs, k);
      CollectFailureSticks(rs, k + 1);
    } else {
      assert rs[..k] == rs;
    }
  }

  /** `get_tiles_coverage` on feature values. */
  function AnnotateAll(vs: seq<FeatureValue>, zoom: int, geo: Geo): Result<seq<FeatureValue>, CoverageError>
  {
    Collect(AnnotateEach(vs, zoom, geo))
  }

  /**
   * The coverage stage succeeds exactly when every feature can be annotated,
   * and then gives one annotated feature per input feature, in input order.
   */
  lemma AnnotateAllInOrder(vs: seq<FeatureValue>, zoom: int, geo: Geo)
    ensures AnnotateAll(vs, zoom, geo).Ok? <==> forall k :: 0 <= k < |vs| ==> Annotate(vs[k], zoom, geo).Ok?
    ensures AnnotateAll(vs, zoom, geo).Ok? ==>
      |AnnotateAll(vs, zoom, geo).value| == |vs| &&
      forall k :: 0 <= k < |vs| ==> AnnotateAll(vs, zoom, geo).value[k] == Annotate(vs[k], zoom, geo).value
  {
    var rs := AnnotateEach(vs, zoom, geo);
    CollectSucceeds(rs);
    if Collect(rs).Ok? {
      forall k | 0 <= k < |vs|
        ensures Collect(rs).value[k] == Annotate(vs[k], zoom, geo).value
      {
        CollectEach(rs, k);
      }
    }
  }

  /**
   * `delayed(get_tile_coverage)(feature, zoom)` in a joblib worker: the
   * feature is unpickled into a fresh object, annotated in place, and
   * pickled back.
   */
  method CoverageWorker(v: FeatureValue, zoom: int, geo: Geo) returns (r: Result<FeatureValue, CoverageError>)
    ensures r == Annotate(v, zoom, geo)
  {
    var feature := new Feature(v.geometry, v.properties);
    var err := GetTileCoverage(feature, zoom, geo);
    if err.Some? {
      return Err(err.value);
    }
    r := Ok(ValueOf(feature));
  }

  /** `get_tiles_coverage(features, zoom)`: every feature annotated, in input order, or the first error. */
  method GetTilesCoverage(features: seq<FeatureValue>, zoom: int, geo: Geo) returns (r: Result<seq<FeatureValue>, CoverageError>)
    ensures r == AnnotateAll(features, zoom, geo)
  {
    ghost var rs := AnnotateEach(features, zoom, geo);
    var newFeatures: seq<FeatureValue> := [];
    for k := 0 to |features|
      invariant Collect(rs[..k]) == Ok(newFeatures)
    {
      CollectOneMore(rs, k);
      var result := CoverageWorker(features[k], zoom, geo);
      if result.Err? {
        CollectFailureSticks(rs, k + 1);
        return Err(result.error);
      }
      newFeatures := newFeatures + [result.value];
    }
    assert rs[..|features|] == rs;
    r := Ok(newFeatures);
  }

  // ---------------------------------------------------------------------
  // Supertiles

  /** `f"{st_tiles_folder}/{tiles_list[0]}-st.png"`. */
  function StileName(stTilesFolder: string, firstTile: string): string
  {
    stTilesFolder + "/" + firstTile + "-st.png"
  }

  /** A feature's state, the files and the requests made after one `super_tile` call. */
  datatype Run = Run(feature: FeatureValue, files: map<string, Image>, requests: seq<string>)

  /** The tile ids of a feature: its `tiles_list`, when it is a list of strings. */
  predicate HasTiles(v: FeatureValue)
  {
    TilesList in v.properties && v.properties[TilesList].StrList?
  }

  /**
   * Everything up to the stitcher call goes through: the feature has its
   * tiles, the service is a TMS, the download returns, and there is a first tile.
   */
  predicate Downloaded(v: FeatureValue, files: map<string, Image>, answer: string -> Response,
                       tilesFolder: string, urlMapService: string, urlMapServiceType: string)
  {
    HasTiles(v) && urlMapServiceType == "tms" &&
    |v.properties[TilesList].items| > 0 &&
    TileFetch.DownloadEffect(files, answer, v.properties[TilesList].items, tilesFolder, urlMapService).result.Ok?
  }

  /**
   * `super_tile` with the stitcher called as `stitcher_tiles(tiles_list_paths,
   * stile_file_name)`: the feature, the files and the requests afterwards.
   * Any exception (no `tiles_list`, a non-TMS service, which leaves
   * `tiles_list_paths` unbound, a failed download, an empty list) is
   * swallowed, keeping what was done before it.
   */
  function SuperTileRun(v: FeatureValue, files: map<string, Image>, answer: string -> Response,
                        tilesFolder: string, stTilesFolder: string, urlMapService: string, urlMapServiceType: string): Run
  {
    if !HasTiles(v) || urlMapServiceType != "tms" then Run(v, files, [])
    else
      var tilesList := v.properties[TilesList].items;
      var b := TileFetch.DownloadEffect(files, answer, tilesList, tilesFolder, urlMapService);
      if b.result.Err? || |tilesList| == 0 then Run(v, b.files, b.requests)
      else
        var name := StileName(stTilesFolder, tilesList[0]);
        var plan := Stitch.PlanStitch(b.files, b.result.value);
        Run(FeatureValue(v.geometry, v.properties[Stile := Str(name)]),
            if plan.Ready? then b.files[name := Stitch.Mosaic(plan.tiles, plan.tileW, plan.tileH)] else b.files,
            b.requests)
  }

  /** `super_tile(feature, tiles_folder, st_tiles_folder, url_map_service, url_map_service_type)`, stitching with two arguments. */
  method SuperTile(feature: Feature, fs: FileSystem, server: TileServer, tilesFolder: string, stTilesFolder: string,
                   urlMapService: string, urlMapServiceType: string)
    modifies feature, fs, server
    ensures var run := SuperTileRun(old(ValueOf(feature)), old(fs.files), server.answer, tilesFolder, stTilesFolder,
                                    urlMapService, urlMapServiceType);
      ValueOf(feature) == run.feature && fs.files == run.files && server.requested == old(server.requested) + run.requests
  {
    if TilesList !in feature.properties || !feature.properties[TilesList].StrList? {
      return;
    }
    var tilesList := feature.properties[TilesList].items;
    if urlMapServiceType != "tms" {
      // `tiles_list_paths` is unbound at the stitcher call
      return;
    }
    var tilesListPaths := TileFetch.DownloadTiles(fs, server, tilesList, tilesFolder, urlMapService);
    if tilesListPaths.Err? || |tilesList| == 0 {
      return;
    }
    var stileFileName := StileName(stTilesFolder, tilesList[0]);
    NeverExits(old(fs.files), server.answer, tilesList, tilesFolder, urlMapService);
    var outcome := Stitch.StitcherTiles(fs, tilesListPaths.value, stileFileName);
    assert !outcome.Exit?;
    feature.properties := feature.properties[Stile := Str(stileFileName)];
  }

  /**
   * The stitcher never raises `SystemExit` from `super_tile`: the paths of a
   * successful download of a non-empty list hold no placeholder, so at least
   * one is left after the filter.
   */
  lemma NeverExits(files: map<string, Image>, answer: string -> Response, tilesList: seq<string>,
                   tilesFolder: string, urlMapService: string)
    requires |tilesList| > 0
    requires TileFetch.DownloadEffect(files, answer, tilesList, tilesFolder, urlMapService).result.Ok?
    ensures var b := TileFetch.DownloadEffect(files, answer, tilesList, tilesFolder, urlMapService);
      !Stitch.PlanStitch(b.files, b.result.value).NoTiles?
  {
    var b := TileFetch.DownloadEffect(files, answer, tilesList, tilesFolder, urlMapService);
    TileFetch.DownloadPaths(files, answer, tilesList, tilesFolder, urlMapService);
    Stitch.DropSentinelsWithout(b.result.value);
    Stitch.NoTilesExactlyWhenEmpty(b.files, b.result.value);
  }

  /** The same call as written, `stitcher_tiles(tiles_list_paths, tiles_folder, stile_file_name)`. */
  function SuperTileAsWrittenRun(v: FeatureValue, files: map<string, Image>, answer: string -> Response,
                                 tilesFolder: string, urlMapService: string, urlMapServiceType: string): Run
  {
    if !HasTiles(v) || urlMapServiceType != "tms" then Run(v, files, [])
    else
      var b := TileFetch.DownloadEffect(files, answer, v.properties[TilesList].items, tilesFolder, urlMapService);
      Run(v, b.files, b.requests)
  }

  /**
   * `super_tile` as written: the stitcher is given three arguments for its
   * two parameters, so the call raises `TypeError` before stitching anything,
   * and the handler returns the feature without `stile`.
   */
  method SuperTileAsWritten(feature: Feature, fs: FileSystem, server: TileServer, tilesFolder: string,
                            stTilesFolder: string, urlMapService: string, urlMapServiceType: string)
    modifies feature, fs, server
    ensures var run := SuperTileAsWrittenRun(old(ValueOf(feature)), old(fs.files), server.answer, tilesFolder,
                                             urlMapService, urlMapServiceType);
      ValueOf(feature) == run.feature && fs.files == run.files && server.requested == old(server.requested) + run.requests
  {
    if TilesList !in feature.properties || !feature.properties[TilesList].StrList? {
      return;
    }
    var tilesList := feature.properties[TilesList].items;
    if urlMapServiceType != "tms" {
      return;
    }
    var tilesListPaths := TileFetch.DownloadTiles(fs, server, tilesList, tilesFolder, urlMapService);
    if tilesListPaths.Err? || |tilesList| == 0 {
      return;
    }
    var stileFileName := StileName(stTilesFolder, tilesList[0]);
    // The three-argument call raises `TypeError` here; `feature["properties"]["stile"]` is never assigned.
  }

  /**
   * `stile` is recorded exactly when everything up to the stitcher call goes
   * through, and then names the supertile of the first tile; the geometry and
   * every other property are left as they were.
   */
  lemma SuperTileRecordsStile(v: FeatureValue, files: map<string, Image>, answer: string -> Response,
                              tilesFolder: string, stTilesFolder: string, urlMapService: string, urlMapServiceType: string)
    ensures var run := SuperTileRun(v, files, answer, tilesFolder, stTilesFolder, urlMapService, urlMapServiceType);
      run.feature.geometry == v.geometry &&
      (Downloaded(v, files, answer, tilesFolder, urlMapService, urlMapServiceType) ==>
        run.feature.properties == v.properties[Stile := Str(StileName(stTilesFolder, v.properties[TilesList].items[0]))]) &&
      (!Downloaded(v, files, answer, tilesFolder, urlMapService, urlMapServiceType) ==> run.feature == v) &&
      (forall key :: key != Stile ==>
        (key in run.feature.properties <==> key in v.properties) &&
        (key in v.properties ==> run.feature.properties[key] == v.properties[key]))
  {
  }

  /**
   * What `super_tile` does to the files: the downloaded tiles are added and
   * nothing else changes, except that the supertile is written when the
   * stitcher can draw it. When it cannot, `stile` is still recorded.
   */
  lemma SuperTileFiles(v: FeatureValue, files: map<string, Image>, answer: string -> Response,
                       tilesFolder: string, stTilesFolder: string, urlMapService: string, urlMapServiceType: string)
    requires Downloaded(v, files, answer, tilesFolder, urlMapService, urlMapServiceType)
    ensures var run := SuperTileRun(v, files, answer, tilesFolder, stTilesFolder, urlMapService, urlMapServiceType);
      var tilesList := v.properties[TilesList].items;
      var b := TileFetch.DownloadEffect(files, answer, tilesList, tilesFolder, urlMapService);
      var name := StileName(stTilesFolder, tilesList[0]);
      var plan := Stitch.PlanStitch(b.files, b.result.value);
      !plan.NoTiles? &&
      (plan.Ready? ==> run.files == b.files[name := Stitch.Mosaic(plan.tiles, plan.tileW, plan.tileH)]) &&
      (plan.Broken? ==> run.files == b.files && run.feature.properties[Stile] == Str(name)) &&
      (forall p :: p in files && p != name ==> p in run.files && run.files[p] == files[p]) &&
      run.requests == b.requests && |run.requests| <= |tilesList|
  {
    var tilesList := v.properties[TilesList].items;
    NeverExits(files, answer, tilesList, tilesFolder, urlMapService);
    TileFetch.DownloadPaths(files, answer, tilesList, tilesFolder, urlMapService);
  }

  /**
   * With tile ids from the coverage stage, a non-empty tiles folder, a URL
   * template of text and `{x}`/`{y}`/`{z}` fields, a TMS service and a
   * server that always answers, `stile` is recorded.
   */
  lemma ReliableSuperTile(v: FeatureValue, files: map<string, Image>, answer: string -> Response,
                          tilesFolder: string, stTilesFolder: string, ps: seq<Piece>)
    requires HasTileIds(v)
    requires tilesFolder != ""
    requires forall url :: answer(url).Response?
    ensures Downloaded(v, files, answer, tilesFolder, TemplateText(ps), "tms")
    ensures SuperTileRun(v, files, answer, tilesFolder, stTilesFolder, TemplateText(ps), "tms").feature ==
            WithStile(v, stTilesFolder)
  {
    TileFetch.DownloadSucceeds(files, answer, v.properties[TilesList].items, tilesFolder, ps);
  }

  /**
   * The call as written never records `stile`, where the two-argument call
   * records it for every feature whose tiles download; both make the same
   * requests.
   */
  lemma AsWrittenLosesStile(v: FeatureValue, files: map<string, Image>, answer: string -> Response,
                            tilesFolder: string, stTilesFolder: string, urlMapService: string, urlMapServiceType: string)
    ensures SuperTileAsWrittenRun(v, files, answer, tilesFolder, urlMapService, urlMapServiceType).feature == v
    ensures SuperTileAsWrittenRun(v, files, answer, tilesFolder, urlMapService, urlMapServiceType).requests ==
            SuperTileRun(v, files, answer, tilesFolder, stTilesFolder, urlMapService, urlMapServiceType).requests
    ensures Stile !in v.properties && Downloaded(v, files, answer, tilesFolder, urlMapService, urlMapServiceType) ==>
      Stile in SuperTileRun(v, files, answer, tilesFolder, stTilesFolder, urlMapService, urlMapServiceType).feature.properties &&
      Stile !in SuperTileAsWrittenRun(v, files, answer, tilesFolder, urlMapService, urlMapServiceType).feature.properties
  {
  }

  // ---------------------------------------------------------------------
  // Building the supertiles of every feature

  /** What one worker does with a feature, given the files it finds. */
  type Step = (FeatureValue, map<string, Image>) -> Run

  /** `super_tile` with its settings fixed, as the `Parallel` call hands it to each worker. */
  function SuperTileStep(answer: string -> Response, tilesFolder: string, stTilesFolder: string,
                         urlMapService: string, urlMapServiceType: string): Step
  {
    (v, files) => SuperTileRun(v, files, answer, tilesFolder, stTilesFolder, urlMapService, urlMapServiceType)
  }

  /** `step` is `super_tile` with these settings. */
  ghost predicate IsSuperTileStep(step: Step, answer: string -> Response, tilesFolder: string, stTilesFolder: string,
                                  urlMapService: string, urlMapServiceType: string)
  {
    forall v, files {:trigger SuperTileRun(v, files, answer, tilesFolder, stTilesFolder, urlMapService, urlMapServiceType)} ::
      step(v, files) == SuperTileRun(v, files, answer, tilesFolder, stTilesFolder, urlMapService, urlMapServiceType)
  }

  /** The features, the files and the requests after the workers ran in input order. */
  datatype Runs = Runs(features: seq<FeatureValue>, files: map<string, Image>, requests: seq<string>)

  /** `step` applied to each feature in turn, each seeing the files the previous ones left. */
  function BuildRun(vs: seq<FeatureValue>, files: map<string, Image>, step: Step): (runs: Runs)
    ensures |runs.features| == |vs|
    decreases |vs|
  {
    if |vs| == 0 then Runs([], files, [])
    else
      var prev := BuildRun(vs[..|vs| - 1], files, step);
      var run := step(vs[|vs| - 1], prev.files);
      Runs(prev.features + [run.feature], run.files, prev.requests + run.requests)
  }

  /** One more feature: the runs so far, then the step on it. */
  lemma BuildRunStep(vs: seq<FeatureValue>, k: nat, files: map<string, Image>, step: Step)
    requires k < |vs|
    ensures var prev := BuildRun(vs[..k], files, step);
      var run := step(vs[k], prev.files);
      BuildRun(vs[..k + 1], files, step) == Runs(prev.features + [run.feature], run.files, prev.requests + run.requests)
  {
    assert vs[..k + 1][..k] == vs[..k];
  }

  /** The features of a run: those of the runs before the last feature, then what the step made of it. */
  lemma BuildRunLast(vs: seq<FeatureValue>, files: map<string, Image>, step: Step)
    requires |vs| > 0
    ensures var prev := BuildRun(vs[..|vs| - 1], files, step);
      BuildRun(vs, files, step).features == prev.features + [step(vs[|vs| - 1], prev.files).feature]
  {
  }

  /** Why the pipeline stopped. */
  datatype PipelineError =
    | CoverageFailed(cause: CoverageError)  // an exception from `get_tile_coverage`, which nothing catches
    | NoSupertilesFolder                    // `os.makedirs("")` raises `FileNotFoundError`

  /**
   * `delayed(super_tile)(feature, ...)` in a joblib worker: the feature is
   * unpickled into a fresh object, given its supertile in place, and
   * pickled back. The files and the server are shared by all workers.
   */
  method SuperTileWorker(v: FeatureValue, fs: FileSystem, server: TileServer, tilesFolder: string, stTilesFolder: string,
                         urlMapService: string, urlMapServiceType: string, ghost step: Step) returns (r: FeatureValue)
    requires IsSuperTileStep(step, server.answer, tilesFolder, stTilesFolder, urlMapService, urlMapServiceType)
    modifies fs, server
    ensures var run := step(v, old(fs.files));
      r == run.feature && fs.files == run.files && server.requested == old(server.requested) + run.requests
  {
    var feature := new Feature(v.geometry, v.properties);
    SuperTile(feature, fs, server, tilesFolder, stTilesFolder, urlMapService, urlMapServiceType);
    r := ValueOf(feature);
  }

  /** The `Parallel` call of `build_super_tiles`: one `super_tile` worker per feature, in input order. */
  method SuperTileWorkers(features: seq<FeatureValue>, fs: FileSystem, server: TileServer, tilesFolder: string,
                          stTilesFolder: string, urlMapService: string, urlMapServiceType: string, ghost step: Step)
    returns (newFeatures: seq<FeatureValue>)
    requires IsSuperTileStep(step, server.answer, tilesFolder, stTilesFolder, urlMapService, urlMapServiceType)
    modifies fs, server
    ensures var runs := BuildRun(features, old(fs.files), step);
      newFeatures == runs.features && fs.files == runs.files && server.requested == old(server.requested) + runs.requests
  {
    ghost var runs := Runs([], fs.files, []);
    newFeatures := [];
    for k := 0 to |features|
      invariant runs == BuildRun(features[..k], old(fs.files), step)
      invariant newFeatures == runs.features
      invariant fs.files == runs.files
      invariant server.requested == old(server.requested) + runs.requests
    {
      BuildRunStep(features, k, old(fs.files), step);
      var result := SuperTileWorker(features[k], fs, server, tilesFolder, stTilesFolder, urlMapService, urlMapServiceType, step);
      ghost var run := step(features[k], runs.files);
      assert old(server.requested) + runs.requests + run.requests == old(server.requested) + (runs.requests + run.requests);
      newFeatures := newFeatures + [result];
      runs := Runs(runs.features + [run.feature], run.files, runs.requests + run.requests);
    }
    assert features[..|features|] == features;
  }

  /**
   * `build_super_tiles(features, tiles_folder, st_tiles_folder, ...)`: create
   * the supertiles folder, then `super_tile` on each feature, in order.
   */
  method BuildSuperTiles(features: seq<FeatureValue>, fs: FileSystem, server: TileServer, tilesFolder: string,
                         stTilesFolder: string, urlMapService: string, urlMapServiceType: string)
    returns (r: Result<seq<FeatureValue>, PipelineError>)
    modifies fs, server
    ensures r.Err? <==> stTilesFolder == ""
    ensures r.Err? ==> r.error == NoSupertilesFolder && fs.files == old(fs.files) && server.requested == old(server.requested)
    ensures r.Ok? ==>
      var runs := BuildRun(features, old(fs.files),
                           SuperTileStep(server.answer, tilesFolder, stTilesFolder, urlMapService, urlMapServiceType));
      r.value == runs.features && fs.files == runs.files && server.requested == old(server.requested) + runs.requests
  {
    if stTilesFolder == "" {
      return Err(NoSupertilesFolder);
    }
    var newFeatures := SuperTileWorkers(features, fs, server, tilesFolder, stTilesFolder, urlMapService, urlMapServiceType,
                                        SuperTileStep(server.answer, tilesFolder, stTilesFolder, urlMapService, urlMapServiceType));
    r := Ok(newFeatures);
  }

  /** The first id of a feature's `tiles_list`, when it has one. */
  function FirstTile(v: FeatureValue): string
  {
    if HasTiles(v) && |v.properties[TilesList].items| > 0 then v.properties[TilesList].items[0] else ""
  }

  /** A feature with `stile` naming the supertile of its first tile in `stTilesFolder`. */
  function WithStile(v: FeatureValue, stTilesFolder: string): FeatureValue
  {
    FeatureValue(v.geometry, v.properties[Stile := Str(StileName(stTilesFolder, FirstTile(v)))])
  }

  /** A feature as the coverage stage leaves it: a non-empty `tiles_list` of tile ids. */
  ghost predicate HasTileIds(v: FeatureValue)
  {
    HasTiles(v) && |v.properties[TilesList].items| > 0 &&
    forall m :: 0 <= m < |v.properties[TilesList].items| ==> Transform.IsTileId(v.properties[TilesList].items[m])
  }

  /**
   * When the step makes of each feature one of two given values, whatever
   * files it finds, so does the whole run.
   */
  lemma {:induction false} BuildRunFeaturesAmong(vs: seq<FeatureValue>, a: seq<FeatureValue>, b: seq<FeatureValue>,
                                                 files: map<string, Image>, step: Step)
    requires |a| == |vs| && |b| == |vs|
    requires forall k, f :: 0 <= k < |vs| ==> step(vs[k], f).feature == a[k] || step(vs[k], f).feature == b[k]
    ensures forall k :: 0 <= k < |vs| ==> BuildRun(vs, files, step).features[k] == a[k] || BuildRun(vs, files, step).features[k] == b[k]
    decreases |vs|
  {
    if |vs| > 0 {
      var n := |vs| - 1;
      BuildRunFeaturesAmong(vs[..n], a[..n], b[..n], files, step);
      BuildRunLast(vs, files, step);
      var prev := BuildRun(vs[..n], files, step);
      forall k | 0 <= k < |vs|
        ensures BuildRun(vs, files, step).features[k] == a[k] || BuildRun(vs, files, step).features[k] == b[k]
      {
        if k < n {
          assert BuildRun(vs, files, step).features[k] == prev.features[k];
          assert vs[..n][k] == vs[k] && a[..n][k] == a[k] && b[..n][k] == b[k];
        }
      }
    }
  }

  /**
   * Each feature `build_super_tiles` returns is the feature it was given,
   * or that feature with `stile` naming the supertile of its first tile.
   */
  lemma BuildRunKeepsFeatures(vs: seq<FeatureValue>, files: map<string, Image>, answer: string -> Response,
                              tilesFolder: string, stTilesFolder: string, urlMapService: string, urlMapServiceType: string)
    ensures var runs := BuildRun(vs, files, SuperTileStep(answer, tilesFolder, stTilesFolder, urlMapService, urlMapServiceType));
      forall k :: 0 <= k < |vs| ==>
        runs.features[k] == vs[k] || runs.features[k] == WithStile(vs[k], stTilesFolder)
  {
    var step := SuperTileStep(answer, tilesFolder, stTilesFolder, urlMapService, urlMapServiceType);
    var stiled := seq(|vs|, k requires 0 <= k < |vs| => WithStile(vs[k], stTilesFolder));
    forall k, f | 0 <= k < |vs|
      ensures step(vs[k], f).feature == vs[k] || step(vs[k], f).feature == stiled[k]
    {
      SuperTileRecordsStile(vs[k], f, answer, tilesFolder, stTilesFolder, urlMapService, urlMapServiceType);
    }
    BuildRunFeaturesAmong(vs, vs, stiled, files, step);
  }

  /**
   * With tile ids on every feature, a non-empty tiles folder, a TMS URL
   * template and a server that always answers, every feature comes back
   * with `stile` naming the supertile of its first tile.
   */
  lemma BuildRunReliable(vs: seq<FeatureValue>, files: map<string, Image>, answer: string -> Response,
                         tilesFolder: string, stTilesFolder: string, ps: seq<Piece>)
    requires forall k :: 0 <= k < |vs| ==> HasTileIds(vs[k])
    requires tilesFolder != ""
    requires forall url :: answer(url).Response?
    ensures var runs := BuildRun(vs, files, SuperTileStep(answer, tilesFolder, stTilesFolder, TemplateText(ps), "tms"));
      forall k :: 0 <= k < |vs| ==> runs.features[k] == WithStile(vs[k], stTilesFolder)
  {
    var step := SuperTileStep(answer, tilesFolder, stTilesFolder, TemplateText(ps), "tms");
    var stiled := seq(|vs|, k requires 0 <= k < |vs| => WithStile(vs[k], stTilesFolder));
    forall k, f | 0 <= k < |vs|
      ensures step(vs[k], f).feature == stiled[k]
    {
      ReliableSuperTile(vs[k], f, answer, tilesFolder, stTilesFolder, ps);
    }
    BuildRunFeaturesAmong(vs, stiled, stiled, files, step);
  }

  // ---------------------------------------------------------------------
  // The pipeline

  /** The features returned, the files and the requests made by one run of `supertiles`. */
  datatype Outcome = Outcome(result: Result<seq<FeatureValue>, PipelineError>, files: map<string, Image>, requests: seq<string>)

  /**
   * `supertiles(...)` on the features of the input file: strip trailing `/`
   * from both folders, annotate every feature, then build the supertiles
   * of the annotated features.
   */
  function PipelineRun(vs: seq<FeatureValue>, files: map<string, Image>, answer: string -> Response, zoom: int, geo: Geo,
                       urlMapService: string, urlMapServiceType: string, tilesFolder: string, stTilesFolder: string): Outcome
  {
    var tiles := RStrip(tilesFolder, '/');
    var stiles := RStrip(stTilesFolder, '/');
    match AnnotateAll(vs, zoom, geo)
    case Err(e) => Outcome(Err(CoverageFailed(e)), files, [])
    case Ok(annotated) =>
      if stiles == "" then Outcome(Err(NoSupertilesFolder), files, [])
      else
        var runs := BuildRun(annotated, files, SuperTileStep(answer, tiles, stiles, urlMapService, urlMapServiceType));
        Outcome(Ok(runs.features), runs.files, runs.requests)
  }

  /**
   * `supertiles(geojson_file, zoom, url_map_service, url_map_service_type,
   * tiles_folder, st_tiles_folder, geojson_output, testing)` with the
   * features already read from `geojson_file`: the features are returned
   * only when `testing` holds, and `None` otherwise.
   */
  method Supertiles(features: seq<FeatureValue>, zoom: int, urlMapService: string, urlMapServiceType: string,
                    tilesFolder: string, stTilesFolder: string, testing: bool, fs: FileSystem, server: TileServer, geo: Geo)
    returns (r: Result<Option<seq<FeatureValue>>, PipelineError>)
    modifies fs, server
    ensures var o := PipelineRun(features, old(fs.files), server.answer, zoom, geo, urlMapService, urlMapServiceType,
                                 tilesFolder, stTilesFolder);
      (o.result.Err? ==> r == Err(o.result.error)) &&
      (o.result.Ok? ==> r == Ok(if testing then Some(o.result.value) else None)) &&
      fs.files == o.files && server.requested == old(server.requested) + o.requests
  {
    var tiles := RStrip(tilesFolder, '/');
    var stiles := RStrip(stTilesFolder, '/');
    var newFeatures := GetTilesCoverage(features, zoom, geo);
    if newFeatures.Err? {
      return Err(CoverageFailed(newFeatures.error));
    }
    var built := BuildSuperTiles(newFeatures.value, fs, server, tiles, stiles, urlMapService, urlMapServiceType);
    if built.Err? {
      return Err(built.error);
    }
    r := Ok(if testing then Some(built.value) else None);
  }

  /**
   * `supertiles` fails exactly when some feature cannot be annotated or the
   * supertiles folder is made of `/` alone, which strips to `""`; a failed
   * run writes no file and makes no request.
   */
  lemma PipelineFails(vs: seq<FeatureValue>, files: map<string, Image>, answer: string -> Response, zoom: int, geo: Geo,
                      urlMapService: string, urlMapServiceType: string, tilesFolder: string, stTilesFolder: string)
    ensures var o := PipelineRun(vs, files, answer, zoom, geo, urlMapService, urlMapServiceType, tilesFolder, stTilesFolder);
      (o.result.Err? <==>
        (exists k :: 0 <= k < |vs| && Annotate(vs[k], zoom, geo).Err?) ||
        (forall k :: 0 <= k < |stTilesFolder| ==> stTilesFolder[k] == '/')) &&
      (o.result.Err? ==> o.files == files && o.requests == []) &&
      (o.result.Err? && o.result.error.CoverageFailed? ==> o.result.error.cause == AnnotateAll(vs, zoom, geo).error)
  {
    AnnotateAllInOrder(vs, zoom, geo);
  }

  /**
   * End to end: when every feature can be annotated, both folders keep a
   * name after stripping, the service is a TMS whose URL template has only
   * `{x}`, `{y}` and `{z}` fields, and the server always answers, every
   * feature comes back annotated and with `stile` naming the supertile of
   * its first tile in the stripped supertiles folder.
   */
  lemma ReliablePipeline(vs: seq<FeatureValue>, files: map<string, Image>, answer: string -> Response, zoom: int, geo: Geo,
                         ps: seq<Piece>, tilesFolder: string, stTilesFolder: string)
    requires forall k :: 0 <= k < |vs| ==> Annotate(vs[k], zoom, geo).Ok?
    requires RStrip(tilesFolder, '/') != "" && RStrip(stTilesFolder, '/') != ""
    requires forall url :: answer(url).Response?
    ensures var o := PipelineRun(vs, files, answer, zoom, geo, TemplateText(ps), "tms", tilesFolder, stTilesFolder);
      o.result.Ok? && |o.result.value| == |vs| &&
      forall k :: 0 <= k < |vs| ==>
        var a := Annotate(vs[k], zoom, geo).value;
        HasTileIds(a) &&
        o.result.value[k] == WithStile(a, RStrip(stTilesFolder, '/'))
  {
    AnnotateAllInOrder(vs, zoom, geo);
    var annotated := AnnotateAll(vs, zoom, geo).value;
    forall k | 0 <= k < |vs|
      ensures HasTileIds(annotated[k])
    {
      AnnotatedTiles(vs[k], zoom, geo);
    }
    BuildRunReliable(annotated, files, answer, RStrip(tilesFolder, '/'), RStrip(stTilesFolder, '/'), ps);
  }
}
