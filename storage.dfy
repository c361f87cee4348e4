/**
 * The outside world the pipeline talks to: a store of image files (local
 * disk or object storage, both reached through `open`) and a tile server
 * reached by HTTP GET.
 */
module Storage {
  import opened Raster

  /** Every file the pipeline can see, by path; a file holds a decoded image. */
  class FileSystem {
    var files: map<string, Image>

    constructor (initial: map<string, Image>)
      ensures files == initial
    {
      files := initial;
    }

    /** `open(path, "wb")` followed by writing an image: the file now holds `im`. */
    method Write(path: string, im: Image)
      modifies this
      ensures files == old(files)[path := im]
    {
      files := files[path := im];
    }
  }

  /** One `requests.get`: a status code and the decoded body, or a transport failure (timeout, refused connection). */
  datatype Response = Response(status: int, body: Image) | TransportError

  /** The tile service: a fixed answer per URL, and the log of every URL requested so far. */
  class TileServer {
    const answer: string -> Response
    var requested: seq<string>

    constructor (answer: string -> Response)
      ensures this.answer == answer && requested == []
    {
      this.answer := answer;
      requested := [];
    }

    /** `requests.get(url)`: the request is logged and answered. */
    method Get(url: string) returns (r: Response)
      modifies this
      ensures r == answer(url)
      ensures requested == old(requested) + [url]
    {
      r := answer(url);
      requested := requested + [url];
    }
  }
}
