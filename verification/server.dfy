/**
 * The static file server's response fairing (src/lib.rs). For a request that
 * Rocket answered with 404, `on_response` serves a file from the store
 * under the configured prefix: 403 for a path the store refuses, 404 or a
 * directory listing for what is not a file, 304 when If-Modified-Since
 * matches, the headers alone for HEAD, and the file, or the requested byte
 * range of it, for GET. `handle_directory_listing` redirects a directory
 * path without a trailing `/` and otherwise renders its entries.
 *
 * `Respond` states the outcome as a function; the `Response` class and the
 * `OnResponse` and `HandleDirectoryListing` methods make the same decisions
 * by updating the response step by step, and are proved to end in the
 * state `Respond` describes.
 *
 * What the source takes from other libraries is a `Host` value the caller
 * supplies: `Path::extension`, the MIME table, chrono's parsing and
 * formatting of HTTP dates (times are whole seconds) and the Handlebars
 * rendering of the listing page.
 */
module Server {
  import opened Base
  import opened Text
  import opened Decimal
  import opened RangeHeader
  import opened FileSystems
  import opened ServerOptions

  const StatusOk: nat := 200
  const PartialContent: nat := 206
  const Found: nat := 302
  const NotModified: nat := 304
  const Forbidden: nat := 403
  const NotFound: nat := 404
  const InternalServerError: nat := 500

  const UnwrapNone := "called `Option::unwrap()` on a `None` value"
  const SubtractOverflow := "attempt to subtract with overflow"
  const AddOverflow := "attempt to add with overflow"
  const NoModifiedSince := "no modified since"

  datatype HttpMethod = Get | Head | Other(name: string)

  /** What the fairing reads of a request: its method, its uri and the first value of two headers. */
  datatype Request = Request(httpMethod: HttpMethod, uri: string, ifModifiedSince: Option<string>, range: Option<string>)

  datatype Body = Empty | Sized(text: string) | Streamed(bytes: seq<byte>)

  /** A response: status, headers (one value per name, as `set_header` leaves them) and body. */
  datatype Reply = Reply(status: nat, headers: map<string, string>, body: Body)

  datatype Rendered = Page(text: string) | RenderError(description: string)

  /**
   * The library calls the fairing makes: `Path::extension` (`None` where the
   * path has none), `get_mime_type`, parsing and formatting a date in the
   * `%a, %d %b %Y %H:%M:%S GMT` format, and rendering the listing template
   * for a directory and its entries.
   */
  datatype Host = Host(
    extension: string -> Option<string>,
    mimeType: string -> string,
    parseHttpDate: string -> Option<int>,
    formatHttpDate: int -> string,
    render: (string, seq<TemplateEntry>) -> Rendered)

  /** `path.replacen(prefix, "", 1)`: the request path below the prefix. */
  function RequestPath(prefix: string, uri: string): string
  {
    ReplaceFirst(uri, prefix, "")
  }

  /** A uri that starts with the prefix loses exactly that prefix. */
  lemma RequestPathStripsPrefix(prefix: string, uri: string)
    requires StartsWith(uri, prefix)
    ensures RequestPath(prefix, uri) == uri[|prefix|..]
  {
    ReplaceFirstAtStart(uri, prefix, "");
  }

  /**
   * `entries.iter().map(|e| TemplateEntry::from(e)).collect()`: every entry
   * converted in order, or the panic of the first one chrono cannot take.
   */
  function TemplateEntries(es: seq<Entry>, formatTime: int -> string): (r: Result<seq<TemplateEntry>>)
    ensures r.Ok? <==> forall i | 0 <= i < |es| :: ToTemplateEntry(es[i], formatTime).Ok?
    ensures r.Ok? ==> |r.value| == |es|
    ensures r.Ok? ==> forall i | 0 <= i < |es| :: r.value[i] == ToTemplateEntry(es[i], formatTime).value
    ensures !r.Ok? ==> r == Panic(NO_SUCH_LOCAL_TIME)
  {
    if es == [] then Ok([])
    else
      var first := ToTemplateEntry(es[0], formatTime);
      var rest := TemplateEntries(es[1..], formatTime);
      assert forall i | 1 <= i < |es| :: es[1..][i - 1] == es[i];
      if !first.Ok? then first.PropagateFailure()
      else if !rest.Ok? then rest
      else Ok([first.value] + rest.value)
  }

  /**
   * The `Range` header as the fairing takes it: an absent header is the
   * empty string, one with a `,` (several ranges) is refused, anything else
   * goes to `Range::from_str`.
   */
  function RequestedRange(header: Option<string>): (r: Result<Range>)
    ensures r.Ok? || r.Err?
  {
    var text := if header.Some? then header.value else "";
    if ',' in text then Err(MultipartRangesUnsupported) else Parse(text)
  }

  /** `Read::take(n)`: at most the first `n` bytes. */
  function Take(bytes: seq<byte>, n: nat): (r: seq<byte>)
    ensures |r| == if n <= |bytes| then n else |bytes|
    ensures r == bytes[..|r|]
  {
    if n <= |bytes| then bytes[..n] else bytes
  }

  /** The If-Modified-Since value parses and names the file's modification second. */
  predicate Unmodified(host: Host, ifModifiedSince: Option<string>, modified: int)
  {
    ifModifiedSince.Some? && host.parseHttpDate(ifModifiedSince.value) == Some(modified)
  }

  /** `StaticFileServer`: a store and the options. */
  datatype StaticFileServer = StaticFileServer(fs: FileSystem, options: Options)
  {
    /** The fairing acts on a 404 so far, for GET or HEAD, on a uri under the prefix. */
    predicate Handles(req: Request, prior: Reply)
    {
      && prior.status == NotFound
      && (req.httpMethod == Get || req.httpMethod == Head)
      && StartsWith(req.uri, options.prefix)
    }

    /**
     * `handle_directory_listing`: a redirect to the path with `/` added, or
     * the rendered listing (200), the template's error (500), or 403 when
     * the store cannot list the directory.
     */
    function DirectoryListing(host: Host, reqPath: string, reply: Reply): Result<Reply>
    {
      if !EndsWith(reqPath, '/') && reqPath != "" then
        Ok(reply.(status := Found, headers := reply.headers["Location" := "/" + reqPath + "/"]))
      else
        var entries := fs.entries(reqPath);
        if entries.Err? then Ok(reply.(status := Forbidden))
        else if !entries.Ok? then entries.PropagateFailure()
        else
          var templateEntries := TemplateEntries(entries.value, host.formatHttpDate);
          if !templateEntries.Ok? then templateEntries.PropagateFailure()
          else match host.render(reqPath, templateEntries.value)
            case Page(text) => Ok(reply.(status := StatusOk, body := Sized(text)))
            case RenderError(description) => Ok(reply.(status := InternalServerError, body := Sized(description)))
    }

    /** `on_response`: the response once the fairing has run, or the panic it raised. */
    function Respond(host: Host, req: Request, prior: Reply): Result<Reply>
    {
      if !Handles(req, prior) then Ok(prior)
      else
        var reqPath := RequestPath(options.prefix, req.uri);
        if !fs.pathValid(reqPath) then Ok(prior.(status := Forbidden))
        else if !fs.isFile(reqPath) then
          if fs.isDir(reqPath) && options.allowDirectoryListing then DirectoryListing(host, reqPath, prior)
          else Ok(prior.(status := NotFound))
        else ServeFile(host, req, reqPath, prior)
    }

    /**
     * A file: its content type, its time as a `DateTime<Utc>` (a panic when
     * chrono cannot represent it), then 304, 403 or HEAD's headers, or on to
     * sending it.
     */
    function ServeFile(host: Host, req: Request, reqPath: string, prior: Reply): Result<Reply>
    {
      var ext := host.extension(reqPath);
      if ext.None? then Panic(UnwrapNone)
      else
        var typed := prior.(headers := prior.headers["Content-Type" := host.mimeType(ext.value)]);
        var modified := fs.lastModified(reqPath);
        if modified.Err? then Panic(NoModifiedSince)
        else if !modified.Ok? then modified.PropagateFailure()
        else if !IsTimestamp(modified.value) then Panic(NO_SUCH_LOCAL_TIME)
        else if req.httpMethod == Get && Unmodified(host, req.ifModifiedSince, modified.value) then
          Ok(typed.(status := NotModified))
        else
          var size := fs.size(reqPath);
          if size.Err? then Ok(typed.(status := Forbidden))
          else if !size.Ok? then size.PropagateFailure()
          else if req.httpMethod == Head then
            Ok(typed.(status := StatusOk, headers := typed.headers["Accept-Ranges" := "bytes"]["Content-Length" := Show(size.value)]))
          else SendFile(host, req, reqPath, typed, modified.value, size.value)
    }

    /** GET on a file: open it from the range's start (or 0), 200 and the whole rest, or the range. */
    function SendFile(host: Host, req: Request, reqPath: string, typed: Reply, modified: int, size: u64): Result<Reply>
    {
      var range := RequestedRange(req.range);
      var start := if range.Ok? then range.value.start else 0;
      var file := fs.openAt(reqPath, Some(start));
      if file.Err? then Ok(typed.(status := Forbidden))
      else if !file.Ok? then file.PropagateFailure()
      else
        var sent := typed.(status := StatusOk, headers := typed.headers["Accept-Ranges" := "bytes"]["Last-Modified" := host.formatHttpDate(modified)]);
        if !range.Ok? then Ok(sent.(body := Streamed(file.value)))
        else PartialReply(range.value, size, file.value, sent)
    }
  }

  /**
   * The range branch: `Content-Length` is the range's length for a closed
   * range and `size - start + 1` for an open one, `Content-Range` is
   * `typ=start-end/size` with `end = start + Content-Length`, status 206,
   * and the body the opened bytes capped at the closed range's length.
   */
  function PartialReply(range: Range, size: u64, bytes: seq<byte>, sent: Reply): Result<Reply>
  {
    var start := range.start;
    if size < start then Panic(SubtractOverflow)
    else if size - start + 1 >= U64_LIMIT then Panic(AddOverflow)
    else
      var len := range.Len();
      if !len.Ok? then len.PropagateFailure()
      else
        var contentLength := if len.value.Some? then len.value.value else size - start + 1;
        var body := if len.value.Some? then Take(bytes, len.value.value) else bytes;
        if start + contentLength >= U64_LIMIT then Panic(AddOverflow)
        else Ok(sent.(
          status := PartialContent,
          headers := sent.headers
            ["Content-Length" := Show(contentLength)]
            ["Content-Range" := range.typ + "=" + Show(start) + "-" + Show(start + contentLength) + "/" + Show(size)],
          body := Streamed(body)))
  }

  // ----- the response as the fairing updates it -----

  /** Rocket's `Response`, as far as the fairing reads and writes it. */
  class Response {
    var status: nat
    var headers: map<string, string>
    var body: Body

    function Snapshot(): Reply
      reads this
    {
      Reply(status, headers, body)
    }

    constructor (reply: Reply)
      ensures Snapshot() == reply
    {
      status := reply.status;
      headers := reply.headers;
      body := reply.body;
    }

    method SetStatus(s: nat)
      modifies this
      ensures Snapshot() == old(Snapshot()).(status := s)
    {
      status := s;
    }

    /** `set_header`: replaces every value of that header. */
    method SetHeader(name: string, value: string)
      modifies this
      ensures Snapshot() == old(Snapshot()).(headers := old(headers)[name := value])
    {
      headers := headers[name := value];
    }

    method SetSizedBody(text: string)
      modifies this
      ensures Snapshot() == old(Snapshot()).(body := Sized(text))
    {
      body := Sized(text);
    }

    method SetStreamedBody(bytes: seq<byte>)
      modifies this
      ensures Snapshot() == old(Snapshot()).(body := Streamed(bytes))
    {
      body := Streamed(bytes);
    }
  }

  /** `handle_directory_listing`, updating the response in place. */
  method HandleDirectoryListing(server: StaticFileServer, host: Host, reqPath: string, response: Response)
    returns (outcome: Result<()>)
    modifies response
    ensures outcome.Ok? <==> server.DirectoryListing(host, reqPath, old(response.Snapshot())).Ok?
    ensures outcome.Ok? ==> response.Snapshot() == server.DirectoryListing(host, reqPath, old(response.Snapshot())).value
    ensures !outcome.Ok? ==> outcome == server.DirectoryListing(host, reqPath, old(response.Snapshot())).PropagateFailure()
  {
    if !EndsWith(reqPath, '/') && reqPath != "" {
      var redirectPath := "/" + reqPath + "/";
      response.SetStatus(Found);
      response.SetHeader("Location", redirectPath);
      return Ok(());
    }
    var entries := server.fs.entries(reqPath);
    if entries.Err? {
      response.SetStatus(Forbidden);
      return Ok(());
    }
    if !entries.Ok? {
      return entries.PropagateFailure();
    }
    var templateEntries := TemplateEntries(entries.value, host.formatHttpDate);
    if !templateEntries.Ok? {
      return templateEntries.PropagateFailure();
    }
    match host.render(reqPath, templateEntries.value) {
      case Page(text) =>
        response.SetStatus(StatusOk);
        response.SetSizedBody(text);
      case RenderError(description) =>
        response.SetStatus(InternalServerError);
        response.SetSizedBody(description);
    }
    outcome := Ok(());
  }

  /** `on_response`, updating the response in place; a panic is returned as the outcome. */
  method OnResponse(server: StaticFileServer, host: Host, req: Request, response: Response)
    returns (outcome: Result<()>)
    modifies response
    ensures outcome.Ok? <==> server.Respond(host, req, old(response.Snapshot())).Ok?
    ensures outcome.Ok? ==> response.Snapshot() == server.Respond(host, req, old(response.Snapshot())).value
    ensures !outcome.Ok? ==> outcome == server.Respond(host, req, old(response.Snapshot())).PropagateFailure()
  {
    if response.status != NotFound {
      return Ok(());
    }
    if !((req.httpMethod == Get || req.httpMethod == Head) && StartsWith(req.uri, server.options.prefix)) {
      return Ok(());
    }
    var reqPath := ReplaceFirst(req.uri, server.options.prefix, "");
    if !server.fs.pathValid(reqPath) {
      response.SetStatus(Forbidden);
      return Ok(());
    }
    if !server.fs.isFile(reqPath) {
      if server.fs.isDir(reqPath) && server.options.allowDirectoryListing {
        outcome := HandleDirectoryListing(server, host, reqPath, response);
      } else {
        response.SetStatus(NotFound);
        outcome := Ok(());
      }
      return;
    }
    outcome := ServeFileTo(server, host, req, reqPath, response);
  }

  /** The file part of `on_response`: content type, 304, 403 or HEAD's headers, or on to sending. */
  method ServeFileTo(server: StaticFileServer, host: Host, req: Request, reqPath: string, response: Response)
    returns (outcome: Result<()>)
    modifies response
    ensures outcome.Ok? <==> server.ServeFile(host, req, reqPath, old(response.Snapshot())).Ok?
    ensures outcome.Ok? ==> response.Snapshot() == server.ServeFile(host, req, reqPath, old(response.Snapshot())).value
    ensures !outcome.Ok? ==> outcome == server.ServeFile(host, req, reqPath, old(response.Snapshot())).PropagateFailure()
  {
    var ext := host.extension(reqPath);
    if ext.None? {
      return Panic(UnwrapNone);
    }
    response.SetHeader("Content-Type", host.mimeType(ext.value));
    var modified := server.fs.lastModified(reqPath);
    if modified.Err? {
      return Panic(NoModifiedSince);
    }
    if !modified.Ok? {
      return modified.PropagateFailure();
    }
    if !IsTimestamp(modified.value) {
      return Panic(NO_SUCH_LOCAL_TIME);
    }
    if req.httpMethod == Get && req.ifModifiedSince.Some? {
      var time := host.parseHttpDate(req.ifModifiedSince.value);
      if time.Some? && time.value - modified.value == 0 {
        response.SetStatus(NotModified);
        return Ok(());
      }
    }
    var size := server.fs.size(reqPath);
    if size.Err? {
      response.SetStatus(Forbidden);
      return Ok(());
    }
    if !size.Ok? {
      return size.PropagateFailure();
    }
    if req.httpMethod == Head {
      response.SetHeader("Accept-Ranges", "bytes");
      response.SetHeader("Content-Length", Show(size.value));
      response.SetStatus(StatusOk);
      return Ok(());
    }
    outcome := SendFileTo(server, host, req, reqPath, modified.value, size.value, response);
  }

  /** The GET part of `on_response`: open the file, then the whole of it or the range. */
  method SendFileTo(server: StaticFileServer, host: Host, req: Request, reqPath: string, modified: int, size: u64, response: Response)
    returns (outcome: Result<()>)
    modifies response
    ensures outcome.Ok? <==> server.SendFile(host, req, reqPath, old(response.Snapshot()), modified, size).Ok?
    ensures outcome.Ok? ==> response.Snapshot() == server.SendFile(host, req, reqPath, old(response.Snapshot()), modified, size).value
    ensures !outcome.Ok? ==> outcome == server.SendFile(host, req, reqPath, old(response.Snapshot()), modified, size).PropagateFailure()
  {
    var rangeHeader := if req.range.Some? then req.range.value else "";
    var range := if ',' in rangeHeader then Err(MultipartRangesUnsupported) else Parse(rangeHeader);
    var start := if range.Ok? then range.value.start else 0;
    var file := server.fs.openAt(reqPath, Some(start));
    if file.Err? {
      response.SetStatus(Forbidden);
      return Ok(());
    }
    if !file.Ok? {
      return file.PropagateFailure();
    }
    response.SetStatus(StatusOk);
    response.SetHeader("Accept-Ranges", "bytes");
    response.SetHeader("Last-Modified", host.formatHttpDate(modified));
    if range.Ok? {
      outcome := SendRangeTo(range.value, size, file.value, response);
      return;
    }
    response.SetStreamedBody(file.value);
    outcome := Ok(());
  }

  /** The range branch of the GET part: `Content-Length`, `Content-Range`, 206 and the capped body. */
  method SendRangeTo(range: Range, size: u64, bytes: seq<byte>, response: Response) returns (outcome: Result<()>)
    modifies response
    ensures outcome.Ok? <==> PartialReply(range, size, bytes, old(response.Snapshot())).Ok?
    ensures outcome.Ok? ==> response.Snapshot() == PartialReply(range, size, bytes, old(response.Snapshot())).value
    ensures !outcome.Ok? ==> outcome == PartialReply(range, size, bytes, old(response.Snapshot())).PropagateFailure()
  {
    var start := range.start;
    if size < start {
      return Panic(SubtractOverflow);
    }
    if size - start + 1 >= U64_LIMIT {
      return Panic(AddOverflow);
    }
    var contentLength: u64 := size - start + 1;
    var body := bytes;
    var len := range.Len();
    if !len.Ok? {
      return len.PropagateFailure();
    }
    if len.value.Some? {
      body := Take(body, len.value.value);
      contentLength := len.value.value;
    }
    response.SetHeader("Content-Length", Show(contentLength));
    if start + contentLength >= U64_LIMIT {
      return Panic(AddOverflow);
    }
    var rangeEnd := start + contentLength;
    response.SetHeader("Content-Range", range.typ + "=" + Show(range.start) + "-" + Show(rangeEnd) + "/" + Show(size));
    response.SetStatus(PartialContent);
    response.SetStreamedBody(body);
    outcome := Ok(());
  }
}
