/**
 * Downloading the tiles of a supertile (super_tiles/utils_tiles.py): each
 * tile id `x-y-z` is put into the URL template of the map service, and
 * the tile is fetched into `tiles_folder/x-y-z.png` unless that file
 * already exists.
 */
module TileFetch {
  import opened Common
  import opened Text
  import opened Raster
  import opened Storage
  import Transform
  import Stitch

  /** Why `fetch_tile` raises. */
  datatype FetchError =
    | BadTileId      // `x, y, z = tile.split("-")` does not unpack: not exactly three parts
    | BadTemplate    // `str.format` rejects the URL template
    | NoFolder       // `os.makedirs("")` raises
    | Transport      // `requests.get` raises: timeout, refused connection

  /** `f"{tiles_folder}/{tile}.png"`. */
  function TilePath(tilesFolder: string, tile: string): string
  {
    tilesFolder + "/" + tile + ".png"
  }

  /** The URL to request and the file to fill, or the error raised before any request is made. */
  function FetchPlan(tile: string, tilesFolder: string, urlMapService: string): Result<(string, string), FetchError>
  {
    var parts := Split(tile, '-');
    if |parts| != 3 then Err(BadTileId)
    else
      match FormatXyz(urlMapService, parts[0], parts[1], parts[2])
      case None => Err(BadTemplate)
      case Some(url) =>
        if tilesFolder == "" then Err(NoFolder) else Ok((url, TilePath(tilesFolder, tile)))
  }

  /** What one `fetch_tile` call does: its result, the files afterwards and the URLs it requested. */
  datatype Step = Step(result: Result<string, FetchError>, files: map<string, Image>, requests: seq<string>)

  function FetchEffect(files: map<string, Image>, answer: string -> Response, tile: string, tilesFolder: string,
                       urlMapService: string): Step
  {
    match FetchPlan(tile, tilesFolder, urlMapService)
    case Err(e) => Step(Err(e), files, [])
    case Ok((url, path)) =>
      if path in files then Step(Ok(path), files, [])
      else
        match answer(url)
        case TransportError => Step(Err(Transport), files, [url])
        case Response(status, body) =>
          Step(Ok(path), if status == 200 then files[path := body] else files, [url])
  }

  /** `fetch_tile(tile, tiles_folder, url_map_service)`. */
  method FetchTile(fs: FileSystem, server: TileServer, tile: string, tilesFolder: string, urlMapService: string)
    returns (r: Result<string, FetchError>)
    modifies fs, server
    ensures var s := FetchEffect(old(fs.files), server.answer, tile, tilesFolder, urlMapService);
      r == s.result && fs.files == s.files && server.requested == old(server.requested) + s.requests
  {
    var parts := Split(tile, '-');
    if |parts| != 3 {
      return Err(BadTileId);
    }
    var url := FormatXyz(urlMapService, parts[0], parts[1], parts[2]);
    if url.None? {
      return Err(BadTemplate);
    }
    if tilesFolder == "" {
      return Err(NoFolder);
    }
    var path := TilePath(tilesFolder, tile);
    if path !in fs.files {
      var response := server.Get(url.value);
      if response.TransportError? {
        return Err(Transport);
      }
      if response.status == 200 {
        fs.Write(path, response.body);
      }
    }
    r := Ok(path);
  }

  /**
   * The outcome of one fetch: it fails exactly on a malformed id, a rejected
   * template, an empty folder name or a failed request; a success names the
   * tile's path; no file other than that path appears, and no file is
   * overwritten.
   */
  lemma FetchOutcome(files: map<string, Image>, answer: string -> Response, tile: string, tilesFolder: string,
                     urlMapService: string)
    ensures var s := FetchEffect(files, answer, tile, tilesFolder, urlMapService);
      var plan := FetchPlan(tile, tilesFolder, urlMapService);
      (s.result.Err? <==> plan.Err? || (TilePath(tilesFolder, tile) !in files && answer(plan.value.0).TransportError?)) &&
      (s.result.Ok? ==> s.result.value == TilePath(tilesFolder, tile)) &&
      (forall p :: p in files ==> p in s.files && s.files[p] == files[p]) &&
      (forall p :: p in s.files && p !in files ==> p == TilePath(tilesFolder, tile) && s.result == Ok(p)) &&
      |s.requests| <= 1
  {
  }

  /** A tile is requested at most once per existing file: once a fetch has left the file, fetching again requests nothing. */
  lemma FetchAgainAfterSuccess(files: map<string, Image>, answer: string -> Response, tile: string, tilesFolder: string,
                               urlMapService: string)
    requires FetchEffect(files, answer, tile, tilesFolder, urlMapService).result.Ok?
    requires TilePath(tilesFolder, tile) in FetchEffect(files, answer, tile, tilesFolder, urlMapService).files
    ensures var s := FetchEffect(files, answer, tile, tilesFolder, urlMapService);
      FetchEffect(s.files, answer, tile, tilesFolder, urlMapService) == Step(s.result, s.files, [])
  {
  }

  /** A response other than 200 leaves no file behind, so the next fetch requests the tile again. */
  lemma FetchAgainAfterRefusal(files: map<string, Image>, answer: string -> Response, tile: string, tilesFolder: string,
                               urlMapService: string)
    requires FetchPlan(tile, tilesFolder, urlMapService).Ok?
    requires TilePath(tilesFolder, tile) !in files
    requires var url := FetchPlan(tile, tilesFolder, urlMapService).value.0;
      answer(url).Response? && answer(url).status != 200
    ensures var s := FetchEffect(files, answer, tile, tilesFolder, urlMapService);
      var url := FetchPlan(tile, tilesFolder, urlMapService).value.0;
      s.files == files && FetchEffect(s.files, answer, tile, tilesFolder, urlMapService).requests == [url]
  {
  }

  /** The URL of a tile made by the coverage stage: its decimal x, y and z put into the template. */
  lemma PlanOfTileId(t: Transform.Tile, tilesFolder: string, ps: seq<Piece>)
    requires tilesFolder != ""
    ensures var x, y, z := NatToString(t.x), NatToString(t.y), NatToString(t.z);
      FetchPlan(Transform.TileId(t), tilesFolder, TemplateText(ps)) ==
        Ok((Substitute(ps, x, y, z), TilePath(tilesFolder, Transform.TileId(t))))
  {
    Transform.SplitTileId(t);
    FormatSubstitutes(ps, NatToString(t.x), NatToString(t.y), NatToString(t.z));
  }

  /** The stitcher reads a downloaded tile's column and row back from its path. */
  lemma TilePathReadsBack(t: Transform.Tile, tilesFolder: string)
    ensures Stitch.Xy(TilePath(tilesFolder, Transform.TileId(t))) == Some((t.x, t.y))
  {
    Stitch.XyOfTilePath(tilesFolder, t);
    assert TilePath(tilesFolder, Transform.TileId(t)) == tilesFolder + "/" + Stitch.TileFileName(t);
  }

  /** Distinct tile ids get distinct files in one folder. */
  lemma TilePathInjective(tilesFolder: string, a: string, b: string)
    ensures TilePath(tilesFolder, a) == TilePath(tilesFolder, b) ==> a == b
  {
    if TilePath(tilesFolder, a) == TilePath(tilesFolder, b) {
      var n := |tilesFolder| + 1;
      assert |a| == |b|;
      assert a == TilePath(tilesFolder, a)[n..n + |a|];
      assert b == TilePath(tilesFolder, b)[n..n + |b|];
    }
  }

  /** A tile path is never the `"_"` placeholder the stitcher drops. */
  lemma TilePathNotSentinel(tilesFolder: string, tile: string)
    ensures TilePath(tilesFolder, tile) != Stitch.Sentinel
  {
    assert |TilePath(tilesFolder, tile)| >= 5;
  }

  /** What `download_tiles` does: one fetch per id, in order, until one raises. */
  datatype Batch = Batch(result: Result<seq<string>, FetchError>, files: map<string, Image>, requests: seq<string>)

  function DownloadEffect(files: map<string, Image>, answer: string -> Response, tiles: seq<string>, tilesFolder: string,
                          urlMapService: string): (b: Batch)
    decreases |tiles|
  {
    if |tiles| == 0 then Batch(Ok([]), files, [])
    else
      var prev := DownloadEffect(files, answer, tiles[..|tiles| - 1], tilesFolder, urlMapService);
      if prev.result.Err? then prev
      else Then(prev.result.value, prev.requests, FetchEffect(prev.files, answer, tiles[|tiles| - 1], tilesFolder, urlMapService))
  }

  /** The batch after a successful one with `paths` and `requests` is followed by the fetch s. */
  function Then(paths: seq<string>, requests: seq<string>, s: Step): Batch
  {
    Batch(if s.result.Ok? then Ok(paths + [s.result.value]) else Err(s.result.error), s.files, requests + s.requests)
  }

  /** A failed batch stays failed, whatever ids follow. */
  lemma {:induction false} DownloadFailureSticks(files: map<string, Image>, answer: string -> Response, tiles: seq<string>,
                                                 tilesFolder: string, urlMapService: string, k: nat)
    requires k <= |tiles|
    requires DownloadEffect(files, answer, tiles[..k], tilesFolder, urlMapService).result.Err?
    ensures DownloadEffect(files, answer, tiles, tilesFolder, urlMapService) ==
            DownloadEffect(files, answer, tiles[..k], tilesFolder, urlMapService)
    decreases |tiles| - k
  {
    if k < |tiles| {
      assert tiles[..k + 1][..k] == tiles[..k];
      DownloadFailureSticks(files, answer, tiles, tilesFolder, urlMapService, k + 1);
    } else {
      assert tiles[..k] == tiles;
    }
  }

  /** The batch over one more id: the fetch of that id after the batch so far, unless the batch already failed. */
  lemma DownloadOneMore(files: map<string, Image>, answer: string -> Response, tiles: seq<string>,
                        tilesFolder: string, urlMapService: string, k: nat)
    requires k < |tiles|
    ensures var prev := DownloadEffect(files, answer, tiles[..k], tilesFolder, urlMapService);
      var s := FetchEffect(prev.files, answer, tiles[k], tilesFolder, urlMapService);
      prev.result.Ok? ==>
        DownloadEffect(files, answer, tiles[..k + 1], tilesFolder, urlMapService) == Then(prev.result.value, prev.requests, s)
  {
    assert tiles[..k + 1][..k] == tiles[..k];
  }

  /** `download_tiles(tiles_list, tiles_folder, url_map_service)`. */
  method DownloadTiles(fs: FileSystem, server: TileServer, tilesList: seq<string>, tilesFolder: string, urlMapService: string)
    returns (r: Result<seq<string>, FetchError>)
    modifies fs, server
    ensures var b := DownloadEffect(old(fs.files), server.answer, tilesList, tilesFolder, urlMapService);
      r == b.result && fs.files == b.files && server.requested == old(server.requested) + b.requests
  {
    ghost var files0, requested0 := fs.files, server.requested;
    ghost var b := Batch(Ok([]), files0, []);
    var paths: seq<string> := [];
    for k := 0 to |tilesList|
      invariant b == DownloadEffect(files0, server.answer, tilesList[..k], tilesFolder, urlMapService)
      invariant b.result == Ok(paths)
      invariant fs.files == b.files
      invariant server.requested == requested0 + b.requests
    {
      ghost var s := FetchEffect(b.files, server.answer, tilesList[k], tilesFolder, urlMapService);
      DownloadOneMore(files0, server.answer, tilesList, tilesFolder, urlMapService, k);
      var p := FetchTile(fs, server, tilesList[k], tilesFolder, urlMapService);
      if p.Err? {
        DownloadFailureSticks(files0, server.answer, tilesList, tilesFolder, urlMapService, k + 1);
        return Err(p.error);
      }
      assert requested0 + b.requests + s.requests == requested0 + (b.requests + s.requests);
      paths := paths + [p.value];
      b := Then(b.result.value, b.requests, s);
    }
    assert tilesList[..|tilesList|] == tilesList;
    // `[t for t in tiles_list_paths if t is not None]` keeps every path: `fetch_tile` never returns None.
    r := Ok(paths);
  }

  /**
   * A successful batch gives one path per id, in the order of the ids, each
   * the id's file in the tiles folder and never the placeholder; files are
   * only added, never changed or removed.
   */
  lemma {:induction false} DownloadPaths(files: map<string, Image>, answer: string -> Response, tiles: seq<string>,
                                         tilesFolder: string, urlMapService: string)
    ensures var b := DownloadEffect(files, answer, tiles, tilesFolder, urlMapService);
      (b.result.Ok? ==>
        |b.result.value| == |tiles| &&
        (forall k :: 0 <= k < |tiles| ==> b.result.value[k] == TilePath(tilesFolder, tiles[k])) &&
        Stitch.Sentinel !in b.result.value) &&
      (forall p :: p in files ==> p in b.files && b.files[p] == files[p]) &&
      |b.requests| <= |tiles|
    decreases |tiles|
  {
    if |tiles| > 0 {
      var init := tiles[..|tiles| - 1];
      DownloadPaths(files, answer, init, tilesFolder, urlMapService);
      var prev := DownloadEffect(files, answer, init, tilesFolder, urlMapService);
      FetchOutcome(prev.files, answer, tiles[|tiles| - 1], tilesFolder, urlMapService);
      var b := DownloadEffect(files, answer, tiles, tilesFolder, urlMapService);
      if prev.result.Ok? {
        var s := FetchEffect(prev.files, answer, tiles[|tiles| - 1], tilesFolder, urlMapService);
        assert b == Then(prev.result.value, prev.requests, s);
        if b.result.Ok? {
          assert b.result.value == prev.result.value + [TilePath(tilesFolder, tiles[|tiles| - 1])];
          forall k | 0 <= k < |tiles|
            ensures b.result.value[k] == TilePath(tilesFolder, tiles[k]) != Stitch.Sentinel
          {
            if k < |init| {
              assert init[k] == tiles[k];
            }
            TilePathNotSentinel(tilesFolder, tiles[k]);
          }
        }
      }
    }
  }

  /** A fetch whose URL and path are well formed succeeds when the server answers. */
  lemma FetchSucceeds(files: map<string, Image>, answer: string -> Response, tile: string, tilesFolder: string,
                      urlMapService: string)
    requires FetchPlan(tile, tilesFolder, urlMapService).Ok?
    requires answer(FetchPlan(tile, tilesFolder, urlMapService).value.0).Response?
    ensures FetchEffect(files, answer, tile, tilesFolder, urlMapService).result.Ok?
  {
  }

  /**
   * Ids that are all tile ids (as the coverage stage makes them), a non-empty
   * folder name, a template made of literal text and the fields `{x}`, `{y}`,
   * `{z}`, and a server that always answers: the download succeeds.
   */
  lemma {:induction false} DownloadSucceeds(files: map<string, Image>, answer: string -> Response, tiles: seq<string>,
                                            tilesFolder: string, ps: seq<Piece>)
    requires tilesFolder != ""
    requires forall url :: answer(url).Response?
    requires forall k :: 0 <= k < |tiles| ==> Transform.IsTileId(tiles[k])
    ensures DownloadEffect(files, answer, tiles, tilesFolder, TemplateText(ps)).result.Ok?
    decreases |tiles|
  {
    if |tiles| > 0 {
      var init := tiles[..|tiles| - 1];
      assert forall k :: 0 <= k < |init| ==> init[k] == tiles[k];
      DownloadSucceeds(files, answer, init, tilesFolder, ps);
      var t :| tiles[|tiles| - 1] == Transform.TileId(t);
      PlanOfTileId(t, tilesFolder, ps);
      var prev := DownloadEffect(files, answer, init, tilesFolder, TemplateText(ps));
      FetchSucceeds(prev.files, answer, tiles[|tiles| - 1], tilesFolder, TemplateText(ps));
    }
  }
}
