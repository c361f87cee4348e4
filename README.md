# super_tiles, modelled in Dafny

super_tiles builds *supertiles*: for every feature of a GeoJSON file it finds
the web-map tiles around the feature, downloads them from a TMS tile
service, stitches them into one image and records that image's path on the
feature as the `stile` property. This project models the pipeline of
`super_tiles/main.py` and the three helper modules it uses. It also models
the older image helpers of `utils_imgs.py`. On that model it proves what the
code promises and where it fails.

| module (file) | source | what it models |
|---|---|---|
| `Text` (text.dfy) | string built-ins | `int()`, `str()` of a non-negative int, `str.split`, `"-".join`, `rstrip`, `os.path.basename`, `os.path.splitext`, `str.format` with `{x}`, `{y}`, `{z}` |
| `Raster` (raster.dfy) | PIL | images as columns of RGBA pixels; `Image.new` as a fresh 2-D array; `paste` as an in-place loop over that array |
| `Storage` (storage.dfy) | disk and HTTP | a class holding the files by path; a class for the tile server with a fixed answer per URL and a log of the URLs requested |
| `Transform` (transform.dfy) | `super_tiles/utils_transform.py` | tile ids `x-y-z`, the loop that gathers ring points in `bbox_geometries`, `get_tiles_bounds` |
| `Stitch` (stitch.dfy) | `super_tiles/utils_img.py` | `stitcher_tiles`: filter, `xy` key, sort, grid span, canvas, paste loop, save, error paths |
| `TileFetch` (fetch.dfy) | `super_tiles/utils_tiles.py` | `fetch_tile` and `download_tiles` against the file store and the server |
| `Orchestrate` (orchestrate.dfy) | `super_tiles/main.py` | the zoom table; `get_tile_coverage` on a `Feature` object updated in place; `get_tiles_coverage`; `super_tile`, as written and corrected; `build_super_tiles`; `supertiles` |
| `Concat` (concat.dfy) | `utils_imgs.py` | `get_concat_h`, `get_concat_v`, `merge_array_tiles` and the file names `verify_tile_images` builds |

Floating-point geometry goes in as parameters: the centroid, the buffer,
mercantile's tile enumeration and tile bounds. They are the `Geo` record
in `Orchestrate`, or a `bounds` function in `Transform`. The model uses
exact `real`s only for the min/max bounding of boxes. Everything else is
exact.

A few choices shape the model:
- joblib's `Parallel` runs every call in a worker process. That worker
  receives a pickled copy of the feature. So each batch operation is a loop
  that hands feature values to a worker method, in input order, and
  collects the worker's results.
- One feature's `get_tile_coverage` updates a `Feature` object in place
  (`Orchestrate.GetTileCoverage`).
- `super_tile` is modelled twice. `Orchestrate.SuperTileAsWritten` is the
  code as written, whose three-argument stitcher call at main.py:59 raises
  a `TypeError`. `Orchestrate.SuperTile` is that call corrected to two
  arguments (see "## Findings"). `build_super_tiles` and `supertiles` are
  modelled with the main.py:59 call corrected (`Orchestrate.SuperTile`),
  so every promise about `stile` made for them holds for the corrected
  code only. As written, no feature ever gets `stile`
  (`Orchestrate.AsWrittenLosesStile`).
- Every state-changing method is proved against a function of the old
  state: `MergeEffect`, `DownloadEffect`, `FetchEffect`, `SuperTileRun`,
  `BuildRun`, `PipelineRun` and `PlanStitch`/`Mosaic`. The lemmas state
  the source's promises about those functions.

Two places where the code and the written design disagree follow the
code:
- `get_tile_coverage` (main.py:109-121) has no `try`. A bad geometry, a zoom
  outside 1..21 (a `KeyError` on `zoom_distances`) or an empty tile set
  (`box(*())` raises) aborts the whole coverage stage. It is not limited to
  one feature (`Orchestrate.PipelineFails`).
- `fetch_tile` (utils_tiles.py:15-25) has no "missing" outcome:
  - it returns the path whatever the status code;
  - a transport error from `requests.get` propagates, which ends the whole
    download, so `super_tile` swallows it;
  - the `t is not None` filter at utils_tiles.py:32 never drops anything.

## Model

| member | source | states |
|---|---|---|
| Text.NatToString | super_tiles/utils_transform.py:62 | `str(n)` of a non-negative int is a non-empty string of digits with no leading zero |
| Text.DigitsValueOfNatToString | super_tiles/utils_transform.py:62 | the decimal text of n reads back as n |
| Text.IntRoundTrip | super_tiles/utils_img.py:24 | `int(str(i)) == i` for every integer, negative ones included |
| Text.NatToStringInjective | super_tiles/utils_transform.py:62 | distinct numbers have distinct decimal texts |
| Text.ParseInt | super_tiles/utils_img.py:24 | `int(s)` succeeds exactly on one or more digits with an optional leading `+` or `-`, and raises on anything else; it gives the digits' decimal value, negated after a `-` |
| Text.Split | super_tiles/utils_img.py:22 | `str.split(sep)` gives at least one part and no part holds the separator |
| Text.SplitWithoutSeparator | super_tiles/utils_img.py:22 | text without the separator splits into itself alone |
| Text.SplitAfterField | super_tiles/utils_tiles.py:16 | a separator-free field followed by the separator splits off as the first part |
| Text.SplitJoin | super_tiles/utils_transform.py:62 | splitting the join of separator-free parts gives back the parts |
| Text.JoinSplit | super_tiles/utils_tiles.py:16 | joining the parts of a split gives back the text |
| Text.Join | super_tiles/utils_transform.py:62 | `"-".join(parts)`; undone by `split` when no part holds the separator (`Text.SplitJoin`), and the inverse of `split` (`Text.JoinSplit`) |
| Text.RStrip | super_tiles/main.py:153-154 | `rstrip(c)` is the longest prefix ending in something other than `c`; everything cut is `c` |
| Text.RStripIdempotent | super_tiles/main.py:153-154 | stripping twice is stripping once |
| Text.Basename | super_tiles/utils_img.py:21 | `os.path.basename` is the slash-free suffix that follows the last `/` |
| Text.BasenameAfterSlash | super_tiles/utils_img.py:21 | the basename of `dir + "/" + name` is `name` for a slash-free name |
| Text.LastIndexOf | super_tiles/utils_img.py:23 | the position of the last occurrence of a character, or -1 when there is none |
| Text.SplitExtRoot | super_tiles/utils_img.py:23 | `os.path.splitext(p)[0]`: cuts from the last `.` of the last component when a non-dot character precedes it; its two cases are stated by `Text.SplitExtRootNoDot` and `Text.SplitExtRootDotted` |
| Text.SplitExtRootNoDot | super_tiles/utils_img.py:23 | `os.path.splitext(p)[0]` of a dot-free name is the name |
| Text.SplitExtRootDotted | super_tiles/utils_img.py:23 | `os.path.splitext(root + "." + ext)[0]` is `root` when `ext` has no `.` or `/` and the last component of `root` has a character other than `.` |
| Text.FormatXyz | super_tiles/utils_tiles.py:17 | `url_map_service.format(x=x, z=z, y=y)`: fields replaced, `{{`/`}}` undoubled, anything else a raised error; its round trip is `Text.FormatSubstitutes` |
| Text.FormatSubstitutes | super_tiles/utils_tiles.py:17 | `format(x=, y=, z=)` of a template of literals and the three fields succeeds and substitutes each field |
| Raster.CompositeUncovered | super_tiles/utils_img.py:46-55 | a canvas position that no pasted image covers keeps the background |
| Raster.CompositeTopmost | super_tiles/utils_img.py:47-55 | a position shows the last pasted image that covers it |
| Raster.CompositeTwo | utils_imgs.py:16-18 | after two pastes a position shows the second image where it covers it, else the first, else the background |
| Raster.SameImage | super_tiles/utils_img.py:57-58 | two images of one size with equal pixels are equal |
| Raster.NewCanvas | super_tiles/utils_img.py:46 | `Image.new` gives a fresh w-by-h canvas filled with the colour |
| Raster.Paste | super_tiles/utils_img.py:52-55 | `paste` at an offset copies the image's pixels inside the canvas and leaves every other pixel unchanged |
| Raster.Freeze | super_tiles/utils_img.py:57-58 | the saved image has the canvas's size and pixels |
| Storage.FileSystem.Write | super_tiles/utils_tiles.py:23-24 | writing a file replaces that path's content and nothing else |
| Storage.TileServer.Get | super_tiles/utils_tiles.py:21 | `requests.get` returns the server's answer for the URL and logs the request |
| Transform.TileIdRoundTrip | super_tiles/utils_transform.py:62 | the id `"-".join(str(n) for n in tile)` splits and parses back to the tile |
| Transform.TileIdInjective | super_tiles/utils_transform.py:62 | distinct tiles get distinct ids |
| Transform.TileId | super_tiles/utils_transform.py:62 | the id `"-".join(str(n) for n in tile)`; decoded by `Transform.ParseTileId` (`Transform.TileIdRoundTrip`) and injective (`Transform.TileIdInjective`) |
| Transform.ParseTileId | super_tiles/utils_img.py:22-24 | the decoder of the `x-y-z` id: a text decodes exactly when it splits on `-` into three non-empty runs of digits |
| Transform.DedupElements | super_tiles/utils_transform.py:68-69 | `uniqTiles` holds no duplicate and exactly the ids of `listTiles` |
| Transform.DedupFirstSeenOrder | super_tiles/utils_transform.py:68-69 | `uniqTiles` keeps the ids in the order of their first occurrence |
| Transform.UniqueInOrder | super_tiles/utils_transform.py:68-69 | the list-comprehension loop builds the first-seen deduplication |
| Transform.HullEncloses | super_tiles/utils_transform.py:44 | `LineString(points).bounds` encloses every point |
| Transform.HullAttained | super_tiles/utils_transform.py:44 | each edge of the bounds is reached by some point |
| Transform.HullIgnoresOrder | super_tiles/utils_transform.py:44 | the bounds depend only on the set of points, not on their order or repetition |
| Transform.RingPointsMembers | super_tiles/utils_transform.py:39-43 | the gathered points are exactly the exterior ring points of the polygons, five per box |
| Transform.PolygonOrderIrrelevant | super_tiles/utils_transform.py:36-44 | `bbox_geometries` depends only on the set of polygons |
| Transform.BboxGeometries | super_tiles/utils_transform.py:36-44 | the nested loop over polygons and ring points computes `LineString(points).bounds`, or none for no points |
| Transform.CoverageTilesList | super_tiles/utils_transform.py:56-71 | `tiles_list` holds no duplicate and holds the id of a tile exactly when the tile was enumerated, in first-seen order |
| Transform.CoverageSize | super_tiles/utils_transform.py:66-67 | `width` and `height` are multiples of 256, at least 256 when some tile was enumerated, and at most 256 per enumerated tile |
| Transform.DistinctColumns | super_tiles/utils_transform.py:60-66 | the set of the `tx` list is the set of the tiles' columns |
| Transform.DistinctRows | super_tiles/utils_transform.py:61-67 | the set of the `ty` list is the set of the tiles' rows |
| Transform.CoverageBoxEnclosesTiles | super_tiles/utils_transform.py:65-74 | `tiles_bbox` encloses every corner of every enumerated tile |
| Transform.CoverageBoxAttained | super_tiles/utils_transform.py:65-74 | each edge of `tiles_bbox` is an edge of some enumerated tile |
| Transform.GetTilesBounds | super_tiles/utils_transform.py:47-75 | the loop over the enumerated tiles builds the coverage record: `tiles_list`, `width`, `height` and `tiles_bbox` |
| Stitch.DropSentinelsKeepsTheRest | super_tiles/utils_img.py:18 | the filter removes every `"_"` and keeps every other path as often as it occurs |
| Stitch.DropSentinelsWithout | super_tiles/utils_img.py:18 | without a `"_"` the filter keeps the list as it is |
| Stitch.TileFileNameParts | super_tiles/utils_img.py:21-22 | the basename of a tile file splits on `-` into x, y and `z.png` |
| Stitch.Xy | super_tiles/utils_img.py:20-24 | `xy(filepath)`: the `int` of the first two `-`-fields of the basename, the second without its extension, or the exception; `Stitch.XyOfTilePath` states it reads back a tile path |
| Stitch.XyOfTilePath | super_tiles/utils_img.py:20-24 | `xy` of `folder/x-y-z.png` is `(x, y)` |
| Stitch.Insert | super_tiles/utils_img.py:29 | inserting an entry adds exactly that entry |
| Stitch.InsertSorted | super_tiles/utils_img.py:29 | inserting into a list sorted by `xy` keeps it sorted |
| Stitch.SortEntries | super_tiles/utils_img.py:29 | `sorted(filepaths, key=xy)` is a permutation of its input and sorted by `(x, y)` |
| Stitch.MinOf | super_tiles/utils_img.py:40 | `min` is below every element and is one of them |
| Stitch.MaxOf | super_tiles/utils_img.py:41 | `max` is above every element and is one of them |
| Stitch.PlanStitch | super_tiles/utils_img.py:17-44 | a stitch that goes ahead has at least one tile, all of the first tile's size |
| Stitch.PlaceAll | super_tiles/utils_img.py:47-51 | each sorted path is opened at its `xy` grid cell, in sorted order |
| Stitch.SpanOf | super_tiles/utils_img.py:40-41 | `x_0, y_0, x_1, y_1` enclose every tile and each is reached by some tile |
| Stitch.PlanIsSortedPermutation | super_tiles/utils_img.py:18-29 | the stitch order is the filtered paths, sorted and permuted |
| Stitch.NoTilesExactlyWhenEmpty | super_tiles/utils_img.py:31-33 | `SystemExit` is raised exactly when no path is left after the filter |
| Stitch.PasteBoxesInside | super_tiles/utils_img.py:43-55 | every paste box lies inside the `out_w` by `out_h` canvas and holds its own tile |
| Stitch.PasteBoxesDisjoint | super_tiles/utils_img.py:49-54 | tiles at different grid cells have disjoint paste boxes |
| Stitch.EmptyCellKeepsBackground | super_tiles/utils_img.py:46 | a grid cell that no tile occupies keeps the transparent blue `(0, 0, 255, 0)` |
| Stitch.CellShowsLastTile | super_tiles/utils_img.py:47-55 | a grid cell shows, pixel for pixel, the last tile in sorted order that sits there |
| Stitch.ColumnsInSpan | super_tiles/utils_img.py:40-43 | the distinct columns lie in `x_0..x_1`, so there are at most `n_x` of them, and exactly `n_x` when there is no gap |
| Stitch.MosaicWidthAndColumns | super_tiles/utils_img.py:43-44 | `out_w` is at least the distinct columns times `tile_w`, and equal to it when there is no gap |
| Stitch.RowsInSpan | super_tiles/utils_img.py:40-43 | the distinct rows lie in `y_0..y_1`, so there are at most `n_y` of them, and exactly `n_y` when there is no gap |
| Stitch.MosaicHeightAndRows | super_tiles/utils_img.py:43-44 | `out_h` is at least the distinct rows times `tile_h`, and equal to it when there is no gap |
| Stitch.SpanOfPlaced | super_tiles/utils_img.py:38-41 | the span of the opened tiles is the span of their `xy` keys |
| Stitch.PastedAll | super_tiles/utils_img.py:47-55 | the paste loop pastes one box per sorted path, in order |
| Stitch.CanvasIsMosaic | super_tiles/utils_img.py:57-58 | a canvas of the mosaic's size whose pixels are the composite of the pastes is the mosaic |
| Stitch.PasteTiles | super_tiles/utils_img.py:47-55 | the paste loop succeeds exactly when every tile opens at the tile size, since a box paste of another size raises; the canvas then holds the pastes in order |
| Stitch.DrawMosaic | super_tiles/utils_img.py:35-55 | allocating and filling the canvas succeeds exactly when every tile opens at the first tile's size, and gives the mosaic |
| Stitch.FrozenIsMosaic | super_tiles/utils_img.py:46-58 | the frozen canvas after all pastes is the mosaic of the opened tiles |
| Stitch.StitcherTiles | super_tiles/utils_img.py:9-63 | `SystemExit` exactly for no tiles; `None` exactly when an exception is caught; otherwise the supertile is saved as `stile_file_name` and that name returned; the files change only on success |
| TileFetch.FetchEffect | super_tiles/utils_tiles.py:15-25 | what one `fetch_tile` does to the files and the request log; its outcomes are stated by `TileFetch.FetchOutcome`, `TileFetch.FetchAgainAfterSuccess` and `TileFetch.FetchAgainAfterRefusal` |
| TileFetch.FetchTile | super_tiles/utils_tiles.py:15-25 | the in-place fetch does what the fetch function of the old state says: its result, the files and the request log |
| TileFetch.FetchOutcome | super_tiles/utils_tiles.py:15-25 | a fetch raises exactly on a bad id, a bad template or an empty folder, or on a transport error for a missing file; otherwise it returns `tiles_folder/tile.png`; files are only added, only that one, and at most one request is made |
| TileFetch.FetchAgainAfterSuccess | super_tiles/utils_tiles.py:20 | once the file exists a second fetch makes no request and changes nothing |
| TileFetch.FetchAgainAfterRefusal | super_tiles/utils_tiles.py:20-24 | a non-200 answer writes nothing, so the next fetch requests again |
| TileFetch.PlanOfTileId | super_tiles/utils_tiles.py:16-19 | for a tile id and a non-empty folder the URL is the substituted template and the path `folder/id.png` |
| TileFetch.TilePathReadsBack | super_tiles/utils_tiles.py:19 | `xy` of a tile's download path is that tile's `(x, y)` |
| TileFetch.TilePathInjective | super_tiles/utils_tiles.py:19 | distinct ids give distinct download paths |
| TileFetch.TilePathNotSentinel | super_tiles/utils_tiles.py:19 | a download path is never the `"_"` placeholder |
| TileFetch.DownloadEffect | super_tiles/utils_tiles.py:28-33 | `download_tiles` as fetches in id order until one raises; stated by `TileFetch.DownloadPaths`, `TileFetch.DownloadFailureSticks` and `TileFetch.DownloadSucceeds` |
| TileFetch.DownloadFailureSticks | super_tiles/utils_tiles.py:29-31 | the first raising fetch ends the download with its error |
| TileFetch.DownloadOneMore | super_tiles/utils_tiles.py:29-31 | after a successful prefix one more id is one more fetch, over the files the prefix left |
| TileFetch.DownloadTiles | super_tiles/utils_tiles.py:28-33 | the loop of fetches gives the download function's result, files and requests |
| TileFetch.DownloadPaths | super_tiles/utils_tiles.py:28-33 | a successful download returns one path per id, in order, each `folder/id.png`, none `"_"`; existing files are kept; at most one request per id |
| TileFetch.FetchSucceeds | super_tiles/utils_tiles.py:15-25 | a well-formed fetch succeeds whenever the server answers |
| TileFetch.DownloadSucceeds | super_tiles/utils_tiles.py:28-33 | tile ids, a non-empty folder, a template of literals and fields, and an answering server: the download succeeds |
| Orchestrate.DecimalOfLevel | super_tiles/main.py:114 | `str(zoom)` of 1..21 is one or two digits |
| Orchestrate.LevelName | super_tiles/main.py:19-41 | the table's keys are `str(1)` to `str(21)` |
| Orchestrate.LevelsDecrease | super_tiles/main.py:19-41 | the distances strictly fall from one level to the next |
| Orchestrate.NoOtherLevel | super_tiles/main.py:114 | a zoom outside 1..21 has no entry: `KeyError` |
| Orchestrate.ZoomDistance | super_tiles/main.py:114 | `zoom_distances[str(zoom)]` or the `KeyError`; stated by `Orchestrate.ZoomLevels` and `Orchestrate.ZoomDistancesDecrease` |
| Orchestrate.ZoomLevels | super_tiles/main.py:114 | `zoom_distances[str(zoom)]` exists exactly for zoom 1..21 |
| Orchestrate.ZoomStep | super_tiles/main.py:19-41 | a deeper zoom has a strictly smaller buffer distance |
| Orchestrate.ZoomDistancesDecrease | super_tiles/main.py:19-41 | a larger zoom always has a strictly smaller distance |
| Orchestrate.GetTileCoverage | super_tiles/main.py:109-121 | the in-place update leaves the annotated feature, or raises the error; on an empty coverage the properties are already written when `box` raises |
| Orchestrate.Annotate | super_tiles/main.py:109-121 | what `get_tile_coverage` returns for a feature value; stated by `Orchestrate.AnnotateRecordsCoverage`, `Orchestrate.AnnotateFails` and `Orchestrate.AnnotatedTiles` |
| Orchestrate.AnnotateRecordsCoverage | super_tiles/main.py:116-120 | `tiles_list`, `tiles_bbox` and the box geometry are recorded; no other property changes |
| Orchestrate.AnnotateFails | super_tiles/main.py:110-119 | `get_tile_coverage` raises exactly on a rejected geometry, a zoom outside 1..21 or no enumerated tile |
| Orchestrate.AnnotatedTiles | super_tiles/main.py:113-117 | an annotated feature's `tiles_list` is a non-empty, duplicate-free list of tile ids, holding exactly the tiles around its centroid |
| Orchestrate.Collect | super_tiles/main.py:123-126 | collected results keep one value per call |
| Orchestrate.CollectSucceeds | super_tiles/main.py:123-126 | `Parallel` returns exactly when no call raised |
| Orchestrate.CollectEach | super_tiles/main.py:123-126 | the k-th value returned is the k-th call's |
| Orchestrate.CollectOneMore | super_tiles/main.py:123-126 | one more call after a prefix: the prefix's error, or this call's error or value appended |
| Orchestrate.CollectFailureSticks | super_tiles/main.py:123-126 | the first raising call decides the error |
| Orchestrate.AnnotateAllInOrder | super_tiles/main.py:99-128 | the coverage stage succeeds exactly when every feature can be annotated, and returns the annotated features in input order |
| Orchestrate.CoverageWorker | super_tiles/main.py:109-124 | a worker annotates its copy of the feature in place and hands back the value or the error |
| Orchestrate.GetTilesCoverage | super_tiles/main.py:99-128 | the batch gives the coverage stage's result |
| Orchestrate.SuperTile | super_tiles/main.py:44-63 | `super_tile` with the two-argument stitcher call updates the feature, the files and the request log as the run function says |
| Orchestrate.SuperTileRun | super_tiles/main.py:44-63 | `super_tile` with the main.py:59 call corrected: the feature, files and requests it leaves; stated by `Orchestrate.SuperTileRecordsStile`, `Orchestrate.SuperTileFiles` and `Orchestrate.ReliableSuperTile` |
| Orchestrate.SuperTileAsWrittenRun | super_tiles/main.py:44-63 | `super_tile` as written: the download, then the caught `TypeError`; stated by `Orchestrate.AsWrittenLosesStile` |
| Orchestrate.NeverExits | super_tiles/main.py:56-59 | a successful download of a non-empty list never raises `SystemExit` in the stitcher |
| Orchestrate.SuperTileAsWritten | super_tiles/main.py:44-63 | `super_tile` as written downloads and then raises `TypeError` at the stitcher call, caught |
| Orchestrate.SuperTileRecordsStile | super_tiles/main.py:52-62 | `stile` is set to `st_tiles_folder/first-st.png` exactly when the download goes through; geometry and every other property unchanged; otherwise the feature is returned as it came |
| Orchestrate.SuperTileFiles | super_tiles/main.py:56-60 | the stitcher never exits; the supertile is saved when stitching goes ahead; a failed stitch still records `stile`; other files keep their content; the requests are the download's |
| Orchestrate.ReliableSuperTile | super_tiles/main.py:44-63 | tile ids, a non-empty folder, a TMS template and an answering server: the feature comes back with `stile` |
| Orchestrate.AsWrittenLosesStile | super_tiles/main.py:59-60 | as written, the feature never gets `stile`, and makes the same requests as the corrected call, which sets `stile` |
| Orchestrate.BuildRun | super_tiles/main.py:83-94 | the workers return one feature per input feature |
| Orchestrate.BuildRunStep | super_tiles/main.py:83-94 | one more feature is one more worker over the files the earlier ones left |
| Orchestrate.BuildRunLast | super_tiles/main.py:83-94 | the last returned feature is the last worker's, run on the files the others left |
| Orchestrate.SuperTileWorker | super_tiles/main.py:84-90 | a worker runs `super_tile` on its own copy of the feature and returns it |
| Orchestrate.SuperTileWorkers | super_tiles/main.py:83-94 | the `Parallel` call over the features runs the workers in input order |
| Orchestrate.BuildSuperTiles | super_tiles/main.py:66-96 | an empty supertiles folder makes `os.makedirs` raise before anything happens; otherwise the workers' results are returned |
| Orchestrate.BuildRunFeaturesAmong | super_tiles/main.py:83-94 | when each worker returns one of two values for its feature, so does the batch |
| Orchestrate.BuildRunKeepsFeatures | super_tiles/main.py:83-96 | each returned feature is its input, with or without `stile` |
| Orchestrate.BuildRunReliable | super_tiles/main.py:66-96 | with the main.py:59 call corrected (`Orchestrate.SuperTile`), tile ids and an answering TMS server, every feature comes back with `stile` |
| Orchestrate.PipelineRun | super_tiles/main.py:131-182 | `supertiles` with the main.py:59 call corrected: strip, annotate, build; stated by `Orchestrate.PipelineFails` and `Orchestrate.ReliablePipeline` |
| Orchestrate.Supertiles | super_tiles/main.py:131-182 | `supertiles` strips the folders, computes the coverage and builds the supertiles; it returns the features when `testing` holds and `None` otherwise |
| Orchestrate.PipelineFails | super_tiles/main.py:153-173 | the pipeline fails exactly when a feature cannot be annotated or the supertiles folder is only `/` characters; a failure writes nothing and requests nothing |
| Orchestrate.ReliablePipeline | super_tiles/main.py:131-182 | with the main.py:59 call corrected (`Orchestrate.SuperTile`): annotatable features, non-empty folders and an answering TMS server: every feature comes back annotated and with `stile` |
| Concat.ToRgb | utils_imgs.py:17-18 | an image pasted onto an RGB canvas keeps its size and loses only its alpha channel |
| Concat.ConcatH | utils_imgs.py:15-19 | the side-by-side join is as wide as both images and as high as the first |
| Concat.ConcatV | utils_imgs.py:22-26 | the stacked join is as wide as the first image and as high as both |
| Concat.PasteTwo | utils_imgs.py:16-18 | the canvas after two pastes is the composite of the two layers |
| Concat.ConcatHIsPasting | utils_imgs.py:15-19 | pasting im1 at `(0, 0)` and im2 at `(im1.width, 0)` on a black canvas gives im1 in the first columns, im2 in the rest, black below a shorter im2 |
| Concat.ConcatVIsPasting | utils_imgs.py:22-26 | pasting im1 at `(0, 0)` and im2 at `(0, im1.height)` gives im1 in the first rows, im2 below, black beside a narrower im2 |
| Concat.GetConcatH | utils_imgs.py:15-19 | `get_concat_h` returns the side-by-side join |
| Concat.GetConcatV | utils_imgs.py:22-26 | `get_concat_v` returns the stacked join |
| Concat.MergeEffect | utils_imgs.py:29-42 | a successful merge returns `outPutImg`, which holds an image |
| Concat.MergeStep | utils_imgs.py:34-40 | a loop turn that succeeds leaves an image in `outPutImg` |
| Concat.MergeKeepsOthers | utils_imgs.py:31-39 | only `outPutImg` is ever written; every other file keeps its content |
| Concat.MergeFailureSticks | utils_imgs.py:30-35 | the first exception ends the call with that error |
| Concat.MergeTurn | utils_imgs.py:34-39 | one turn opens the tile, joins it as `position` says and saves the join |
| Concat.MergeArrayTiles | utils_imgs.py:29-42 | the in-place merge gives the merge function's result and files |
| Concat.MergeFails | utils_imgs.py:30-35 | the call raises exactly when the list is empty or some tile's key or file is missing, where after the first save `outPutImg` always exists |
| Concat.MergeIsFold | utils_imgs.py:29-42 | when every tile opens and none is `outPutImg`, the output file ends up holding the left fold of the join over the tiles, every other file untouched |
| Concat.FoldHorizontalSize | utils_imgs.py:38-39 | joined horizontally, the result is as wide as all the tiles and as high as the first |
| Concat.FoldVerticalSize | utils_imgs.py:36-37 | stacked, the result is as wide as the first and as high as all the tiles |
| Concat.FoldOtherPosition | utils_imgs.py:36-39 | with another position the fold is the first tile |
| Concat.MergeKeepsFirst | utils_imgs.py:30-40 | with one tile, or another position, the output file holds the first tile unchanged |
| Concat.TileImageNameInjective | utils_imgs.py:66 | distinct tiles get distinct file names |
| Concat.TileImageNames | utils_imgs.py:62-67 | one name per distinct tile; a name is listed exactly when some tile has it; no name twice |

## Left out

- Geometry: shapely, pyproj and mercantile are floating-point libraries. They are parameters (`Orchestrate.Geo`, the `bounds` argument of `Transform.CoverageOf`), so `generate_buffer` and `tile_centroid` (utils_transform.py:12-33) are not modelled.
- Images are modelled decoded, as RGBA pixel grids. A file holding bytes that are not an image is not modelled. Nor is a `"wb"` write of a response body that does not decode.
- PIL modes: `Image.new("RGB")` and pasting an RGBA image onto it are modelled as dropping the alpha channel (`Concat.ToRgb`). Other mode conversions, palettes and file formats are left out.
- I/O itself: `json.load`, `json.dumps` and the output GeoJSON file, click, tqdm progress bars, logging and `print`. The model starts from the features already read.
- Directories: `os.makedirs` is modelled only by its failure on `""`. Object-storage paths are modelled like local ones.
- joblib's parallelism: workers run one after the other, in input order. Under real parallelism two features that share a first tile write the same supertile in an unspecified order. Also, under real joblib, calls already dispatched when a `fetch_tile` or a worker raises may still run and write files. After a failed download the model's file map is therefore a lower bound on the files written.
- `build_super_tiles`' `zoom` argument is used only for the progress text and is not modelled.
- Features without `properties`: the model's `FeatureValue` always carries a properties map. In the pipeline such a feature never reaches `super_tile`: `feature["properties"]` at main.py:116 raises inside `get_tile_coverage` and aborts the whole coverage stage.
- `tiles_list` values that are not lists of strings: `super_tile` catches those failures. The model stops there, without recording which exception it was.
- `int()` accepting surrounding whitespace and underscores is not modelled. Only a sign and digits are.
- `str.format` is modelled for literal text and the fields `{x}`, `{y}`, `{z}`. The `{{` and `}}` escapes are modelled: they give a literal brace. Format specs, conversions and positional fields are modelled as a rejected template.
- `TileImageNames`: the order in which `set(tiles)` iterates is left open, as Python leaves it.
- `verify_image`, `verify_super_tile_images` and the `Parallel` call of `verify_tile_images` (utils_imgs.py:45-89) are left out: they call `img.verify()`, `os.path.getsize` and `os.remove`, which are file-format checks on bytes.
- utils_tiles_wmts.py, super_tiles.py and setup.py are not part of this model.
- `Concat.MergeEffect`, `Concat.MergeStep`: their own ensures state only what every success leaves. The full behaviour is stated by `Concat.MergeFails`, `Concat.MergeIsFold`, `Concat.MergeKeepsOthers` and `Concat.MergeKeepsFirst`.

## Findings

| source | as written | input that shows it | evidently intended | confidence | as-written member | corrected member |
|---|---|---|---|---|---|---|
| super_tiles/main.py:59 | `stitcher_tiles(tiles_list_paths, tiles_folder, stile_file_name)` passes three arguments to a two-parameter function (utils_img.py:9). The `TypeError` is caught at main.py:61, so no supertile is ever stitched and `stile` is never set | any feature with a non-empty `tiles_list` of tile ids, `url_map_service_type = "tms"`, a reachable server (`Orchestrate.SuperTileAsWritten` models the call as written) | `stitcher_tiles(tiles_list_paths, stile_file_name)`, after which the feature records `stile` (`Orchestrate.SuperTile`, used by the rest of the pipeline) | not executed | Orchestrate.AsWrittenLosesStile | Orchestrate.ReliableSuperTile |
