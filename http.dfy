/** The request handler: route selection on the exact request path, the playlist
    and landing responses, and the segment response whose body is copied to the
    client in chunks of 1 MiB until the file ends or the client goes away.

    The segment directory is a map from file name to contents; the client is an
    oracle that says, for each chunk write in turn, whether the connection has
    been reset by then. */
module Http {
  import opened Wrappers
  import opened Text
  import opened Naming
  import opened Hls

  newtype byte = x: int | 0 <= x < 256

  /** A header as given to `send_header`: name, then value. */
  type Header = (string, string)

  datatype Body = NoBody | TextBody(text: string) | Bytes(data: seq<byte>)

  /** What the handler sends: the status line, the headers it sets itself, and the body.
      A segment body holds the bytes that reached the client; a playlist or landing
      body is the whole text handed to the single write, whether or not it arrived. */
  datatype Response = Response(status: nat, headers: seq<Header>, body: Body)

  const LandingPage := "<h1>Service is running</h1><p>HLS at <a href='/stream.m3u8'>/stream.m3u8</a></p>"

  /** Size of each `f.read` in the copy loop. */
  const ChunkSize: nat := 1024 * 1024

  const PlaylistHeaders: seq<Header> :=
    [("Content-type", "application/vnd.apple.mpegurl"), ("Cache-Control", "no-cache")]

  function SegmentHeaders(size: nat): seq<Header>
  {
    [("Content-type", "video/MP2T"), ("Cache-Control", "no-cache"), ("Content-Length", NatToString(size))]
  }

  const NotFound := Response(404, [], NoBody)
  const BadRequest := Response(400, [], NoBody)

  datatype Route = Landing | PlaylistRoute | SegmentRoute | NoRoute

  /** The branch `do_GET` takes for a request path. */
  function RouteOf(path: string): (r: Route)
    ensures r == Landing <==> path == "/" || path == "/health"
    ensures r == PlaylistRoute <==> path == "/stream.m3u8"
    ensures r == SegmentRoute <==> StartsWith(path, "/segment")
  {
    if path == "/" || path == "/health" then Landing
    else if path == "/stream.m3u8" then assert path[2] != "/segment"[2]; PlaylistRoute
    else if StartsWith(path, "/segment") then SegmentRoute
    else NoRoute
  }

  /** `do_HEAD`: every path is answered 200 with a plain-text content type and no body. */
  function Head(path: string): (r: Response)
    ensures r.status == 200 && r.body == NoBody
    ensures r.headers == [("Content-type", "text/plain")]
  {
    Response(200, [("Content-type", "text/plain")], NoBody)
  }

  /** `f.read(ChunkSize)` at offset `pos`: up to one chunk, empty at end of file. */
  function Read(data: seq<byte>, pos: nat): (chunk: seq<byte>)
    requires pos <= |data|
    ensures chunk == [] <==> pos == |data|
    ensures pos + |chunk| <= |data| && chunk == data[pos..pos + |chunk|]
    ensures pos + |chunk| < |data| ==> |chunk| == ChunkSize
    ensures |chunk| <= ChunkSize
  {
    if pos + ChunkSize <= |data| then data[pos..pos + ChunkSize] else data[pos..]
  }

  /** No chunk write of a file of `size` bytes meets a reset connection. */
  ghost predicate StaysConnected(disconnects: nat -> bool, size: nat)
  {
    forall j: nat :: j * ChunkSize < size ==> !disconnects(j)
  }

  /** The first `writes` chunk writes succeed and write number `writes` meets a reset,
      while a chunk is still left to send. */
  predicate CutAt(disconnects: nat -> bool, size: nat, writes: nat)
  {
    && writes * ChunkSize < size
    && disconnects(writes)
    && forall j: nat :: j < writes ==> !disconnects(j)
  }

  /** What the client receives of `data`: all of it when it stays connected, otherwise
      the whole chunks before the first write that fails. */
  ghost predicate Delivered(data: seq<byte>, disconnects: nat -> bool, sent: seq<byte>)
  {
    || (StaysConnected(disconnects, |data|) && sent == data)
    || (exists writes: nat :: CutAt(disconnects, |data|, writes) && sent == data[..writes * ChunkSize])
  }

  /** The loop `while chunk := f.read(1024 * 1024)` writing each chunk, leaving the loop
      on `BrokenPipeError` or `ConnectionResetError`. */
  method CopyChunks(data: seq<byte>, disconnects: nat -> bool) returns (sent: seq<byte>, writes: nat)
    ensures |sent| <= |data| && sent == data[..|sent|]
    ensures forall j: nat :: j < writes ==> !disconnects(j)
    ensures sent == data <==> StaysConnected(disconnects, |data|)
    ensures sent != data ==> CutAt(disconnects, |data|, writes) && |sent| == writes * ChunkSize
    ensures Delivered(data, disconnects, sent)
  {
    sent, writes := [], 0;
    var pos := 0;
    var chunk := Read(data, pos);
    while chunk != []
      invariant pos <= |data| && chunk == Read(data, pos)
      invariant sent == data[..pos]
      invariant pos == writes * ChunkSize || pos == |data|
      invariant pos <= writes * ChunkSize
      invariant forall j: nat :: j < writes ==> !disconnects(j)
      decreases |data| - pos
    {
      if disconnects(writes) {
        break;
      }
      sent := sent + chunk;
      pos := pos + |chunk|;
      writes := writes + 1;
      chunk := Read(data, pos);
    }
    if sent != data {
      assert CutAt(disconnects, |data|, writes);
    }
  }

  /** The response `handle_segment` gives for `path`, the directory holding the files. */
  ghost predicate SegmentResponse(path: string, dir: map<string, seq<byte>>, disconnects: nat -> bool, resp: Response)
  {
    match ParseSegment(path)
    case None => resp == BadRequest
    case Some(n) =>
      if SegmentName(n) !in dir then resp == NotFound
      else
        var file := dir[SegmentName(n)];
        && resp.status == 200
        && resp.headers == SegmentHeaders(|file|)
        && resp.body.Bytes?
        && Delivered(file, disconnects, resp.body.data)
  }

  /** `handle_segment`: parse the number from the path (400 when the pattern is absent),
      look up the canonical file name (404 when absent), then stream the file. */
  method HandleSegment(path: string, dir: map<string, seq<byte>>, disconnects: nat -> bool)
    returns (resp: Response)
    ensures SegmentResponse(path, dir, disconnects, resp)
    ensures ParseSegment(path).None? ==> resp.status == 400
    ensures resp.status == 200 ==>
      && ParseSegment(path).Some? && SegmentName(ParseSegment(path).value) in dir
      && var file := dir[SegmentName(ParseSegment(path).value)];
      && resp.body.Bytes? && |resp.body.data| <= |file| && resp.body.data == file[..|resp.body.data|]
  {
    var parsed := ParseSegment(path);
    if parsed.None? {
      return BadRequest;
    }
    var name := SegmentName(parsed.value);
    if name !in dir {
      return NotFound;
    }
    var sent, _ := CopyChunks(dir[name], disconnects);
    resp := Response(200, SegmentHeaders(|dir[name]|), Bytes(sent));
  }

  /** `do_GET` on a snapshot of the known segment numbers and of the directory. */
  method HandleGet(path: string, available: set<nat>, dir: map<string, seq<byte>>, disconnects: nat -> bool)
    returns (resp: Response)
    ensures RouteOf(path) == Landing ==> resp == Response(200, [("Content-type", "text/html")], TextBody(LandingPage))
    ensures RouteOf(path) == PlaylistRoute ==> resp == Response(200, PlaylistHeaders, TextBody(Playlist(available)))
    ensures RouteOf(path) == SegmentRoute ==> SegmentResponse(path, dir, disconnects, resp)
    ensures RouteOf(path) == NoRoute ==> resp == NotFound
  {
    match RouteOf(path)
    case Landing =>
      resp := Response(200, [("Content-type", "text/html")], TextBody(LandingPage));
    case PlaylistRoute =>
      var text := RenderPlaylist(available);
      resp := Response(200, PlaylistHeaders, TextBody(text));
    case SegmentRoute =>
      resp := HandleSegment(path, dir, disconnects);
    case NoRoute =>
      resp := NotFound;
  }

  /** A URI the playlist lists, requested relative to `/stream.m3u8`, reaches the segment
      handler and is answered from the file of that very number: 200 with the file's
      length and, when the client stays, all of its bytes; 404 once the file is gone. */
  lemma PlaylistUriServed(n: nat, dir: map<string, seq<byte>>, disconnects: nat -> bool, resp: Response)
    requires SegmentResponse("/" + SegmentName(n), dir, disconnects, resp)
    ensures RouteOf("/" + SegmentName(n)) == SegmentRoute
    ensures SegmentName(n) !in dir ==> resp == NotFound
    ensures SegmentName(n) in dir ==>
      var file := dir[SegmentName(n)];
      && resp.status == 200
      && resp.headers == SegmentHeaders(|file|)
      && resp.body.Bytes?
      && (StaysConnected(disconnects, |file|) ==> resp.body.data == file)
  {
    assert forall c :: c in "/" ==> c != 's';
    ParseSegmentName("/", n);
    SegmentPathRoute(n);
  }

  lemma SegmentPathRoute(n: nat)
    ensures StartsWith("/" + SegmentName(n), "/segment")
  {
    var path := "/" + SegmentName(n);
    assert path[..8] == "/" + SegmentPrefix;
  }

  /** A path in which the pattern does not occur is refused with 400 whatever the
      directory holds. */
  lemma MalformedPathRefused(path: string, dir: map<string, seq<byte>>, disconnects: nat -> bool, resp: Response)
    requires forall j: nat, k: nat :: !MatchAt(path, j, k)
    requires SegmentResponse(path, dir, disconnects, resp)
    ensures resp == BadRequest
  {
  }
}
