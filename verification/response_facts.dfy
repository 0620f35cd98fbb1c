/**
 * The decision sequence of `on_response` (src/lib.rs), branch by branch:
 * which requests it leaves alone, when it answers 403, 404, 302, a listing,
 * 304, HEAD's headers, the whole file or a byte range, and where it panics.
 * Each lemma names the conditions of one branch and states the response
 * that results, for any store and any host.
 */
module ResponseFacts {
  import opened Base
  import opened Text
  import opened Decimal
  import opened RangeHeader
  import opened FileSystems
  import opened Server

  /** The path the fairing works on, for a uri under the prefix. */
  function PathOf(server: StaticFileServer, req: Request): string
    requires StartsWith(req.uri, server.options.prefix)
  {
    req.uri[|server.options.prefix|..]
  }

  /** The request reaches the file branch with the file modified at second `t`. */
  predicate ReachesFile(server: StaticFileServer, host: Host, req: Request, prior: Reply, t: int)
  {
    && server.Handles(req, prior)
    && server.fs.pathValid(PathOf(server, req))
    && server.fs.isFile(PathOf(server, req))
    && host.extension(PathOf(server, req)).Some?
    && server.fs.lastModified(PathOf(server, req)) == Ok(t)
    && IsTimestamp(t)
  }

  /** The prior response with the file's `Content-Type` set, as every file branch leaves it. */
  function Typed(server: StaticFileServer, host: Host, req: Request, prior: Reply): Reply
    requires StartsWith(req.uri, server.options.prefix) && host.extension(PathOf(server, req)).Some?
  {
    prior.(headers := prior.headers["Content-Type" := host.mimeType(host.extension(PathOf(server, req)).value)])
  }

  /** `Typed` with `Accept-Ranges` and `Last-Modified` set, as a GET that opened the file leaves it. */
  function Opened(server: StaticFileServer, host: Host, req: Request, prior: Reply, t: int): Reply
    requires StartsWith(req.uri, server.options.prefix) && host.extension(PathOf(server, req)).Some?
  {
    var typed := Typed(server, host, req, prior);
    typed.(status := StatusOk, headers := typed.headers["Accept-Ranges" := "bytes"]["Last-Modified" := host.formatHttpDate(t)])
  }

  // ----- before the store is asked -----

  /** The response is left as it was unless it is a 404, the method GET or HEAD and the uri under the prefix. */
  lemma Declines(server: StaticFileServer, host: Host, req: Request, prior: Reply)
    requires prior.status != NotFound || !(req.httpMethod == Get || req.httpMethod == Head)
      || !StartsWith(req.uri, server.options.prefix)
    ensures server.Respond(host, req, prior) == Ok(prior)
  {
  }

  /** A path the store refuses is 403, nothing else changed. */
  lemma RefusedPath(server: StaticFileServer, host: Host, req: Request, prior: Reply)
    requires server.Handles(req, prior) && !server.fs.pathValid(PathOf(server, req))
    ensures server.Respond(host, req, prior) == Ok(prior.(status := Forbidden))
  {
    RequestPathStripsPrefix(server.options.prefix, req.uri);
  }

  /** Not a file, and not a directory that may be listed: 404, nothing else changed. */
  lemma NotAFile(server: StaticFileServer, host: Host, req: Request, prior: Reply)
    requires server.Handles(req, prior)
    requires server.fs.pathValid(PathOf(server, req)) && !server.fs.isFile(PathOf(server, req))
    requires !(server.fs.isDir(PathOf(server, req)) && server.options.allowDirectoryListing)
    ensures server.Respond(host, req, prior) == Ok(prior.(status := NotFound))
  {
    RequestPathStripsPrefix(server.options.prefix, req.uri);
  }

  /** A listable directory named without a trailing `/`: 302 to `/` + path + `/`. */
  lemma RedirectsDirectory(server: StaticFileServer, host: Host, req: Request, prior: Reply)
    requires server.Handles(req, prior)
    requires var p := PathOf(server, req);
      server.fs.pathValid(p) && !server.fs.isFile(p) && server.fs.isDir(p) && server.options.allowDirectoryListing
      && p != "" && !EndsWith(p, '/')
    ensures server.Respond(host, req, prior)
      == Ok(prior.(status := Found, headers := prior.headers["Location" := "/" + PathOf(server, req) + "/"]))
  {
    RequestPathStripsPrefix(server.options.prefix, req.uri);
  }

  /**
   * A listable directory named with a trailing `/` (or the empty path): 403
   * when the store cannot list it, a panic when a file in it has a time
   * chrono cannot represent, otherwise the page rendered from its entries
   * (200) or the template's error message (500).
   */
  lemma ListsDirectory(server: StaticFileServer, host: Host, req: Request, prior: Reply)
    requires server.Handles(req, prior)
    requires var p := PathOf(server, req);
      server.fs.pathValid(p) && !server.fs.isFile(p) && server.fs.isDir(p) && server.options.allowDirectoryListing
      && (p == "" || EndsWith(p, '/'))
    requires server.fs.entries(PathOf(server, req)).Ok? || server.fs.entries(PathOf(server, req)).Err?
    ensures var p := PathOf(server, req);
      var entries := server.fs.entries(p);
      server.Respond(host, req, prior) ==
        if entries.Err? then Ok(prior.(status := Forbidden))
        else if exists i | 0 <= i < |entries.value| :: entries.value[i].File? && !IsTimestamp(entries.value[i].lastModified)
        then Panic(NO_SUCH_LOCAL_TIME)
        else match host.render(p, TemplateEntries(entries.value, host.formatHttpDate).value)
          case Page(text) => Ok(prior.(status := StatusOk, body := Sized(text)))
          case RenderError(description) => Ok(prior.(status := InternalServerError, body := Sized(description)))
  {
    RequestPathStripsPrefix(server.options.prefix, req.uri);
  }

  // ----- a file -----

  /** A file whose path has no extension: the `unwrap` panics. */
  lemma NoExtensionPanics(server: StaticFileServer, host: Host, req: Request, prior: Reply)
    requires server.Handles(req, prior)
    requires var p := PathOf(server, req);
      server.fs.pathValid(p) && server.fs.isFile(p) && host.extension(p).None?
    ensures server.Respond(host, req, prior) == Panic(UnwrapNone)
  {
    RequestPathStripsPrefix(server.options.prefix, req.uri);
  }

  /** A file whose modification time the store cannot give: the `expect` panics. */
  lemma NoModifiedTimePanics(server: StaticFileServer, host: Host, req: Request, prior: Reply)
    requires server.Handles(req, prior)
    requires var p := PathOf(server, req);
      server.fs.pathValid(p) && server.fs.isFile(p) && host.extension(p).Some? && server.fs.lastModified(p).Err?
    ensures server.Respond(host, req, prior) == Panic(NoModifiedSince)
  {
    RequestPathStripsPrefix(server.options.prefix, req.uri);
  }

  /** A file whose modification time chrono cannot represent: `DateTime::from` panics. */
  lemma UnrepresentableTimePanics(server: StaticFileServer, host: Host, req: Request, prior: Reply, t: int)
    requires server.Handles(req, prior)
    requires var p := PathOf(server, req);
      server.fs.pathValid(p) && server.fs.isFile(p) && host.extension(p).Some? && server.fs.lastModified(p) == Ok(t)
    requires !IsTimestamp(t)
    ensures server.Respond(host, req, prior) == Panic(NO_SUCH_LOCAL_TIME)
  {
    RequestPathStripsPrefix(server.options.prefix, req.uri);
  }

  /** A GET whose If-Modified-Since names the file's modification second: 304, only `Content-Type` set. */
  lemma NotModifiedOnGet(server: StaticFileServer, host: Host, req: Request, prior: Reply, t: int)
    requires ReachesFile(server, host, req, prior, t)
    requires req.httpMethod == Get && Unmodified(host, req.ifModifiedSince, t)
    ensures server.Respond(host, req, prior) == Ok(Typed(server, host, req, prior).(status := NotModified))
  {
    RequestPathStripsPrefix(server.options.prefix, req.uri);
  }

  /**
   * Sending back the `Last-Modified` value a GET received, when the host's
   * date parser reads back what its formatter wrote, gives 304.
   */
  lemma RevalidatesWithLastModified(server: StaticFileServer, host: Host, req: Request, prior: Reply, t: int)
    requires ReachesFile(server, host, req, prior, t) && req.httpMethod == Get
    requires host.parseHttpDate(host.formatHttpDate(t)) == Some(t)
    ensures var again := req.(ifModifiedSince := Some(host.formatHttpDate(t)));
      server.Respond(host, again, prior) == Ok(Typed(server, host, again, prior).(status := NotModified))
  {
    NotModifiedOnGet(server, host, req.(ifModifiedSince := Some(host.formatHttpDate(t))), prior, t);
  }

  /** HEAD never produces a 304: a HEAD response with status 304 is the prior response, untouched. */
  lemma HeadNeverNotModified(server: StaticFileServer, host: Host, req: Request, prior: Reply)
    requires req.httpMethod == Head
    requires server.Respond(host, req, prior).Ok? && server.Respond(host, req, prior).value.status == NotModified
    ensures server.Respond(host, req, prior).value == prior
  {
  }

  /** HEAD on a file of `n` bytes: 200 with `Accept-Ranges: bytes` and `Content-Length: n`, the body untouched. */
  lemma HeadReply(server: StaticFileServer, host: Host, req: Request, prior: Reply, t: int, n: u64)
    requires ReachesFile(server, host, req, prior, t) && req.httpMethod == Head
    requires server.fs.size(PathOf(server, req)) == Ok(n)
    ensures var typed := Typed(server, host, req, prior);
      server.Respond(host, req, prior)
        == Ok(typed.(status := StatusOk, headers := typed.headers["Accept-Ranges" := "bytes"]["Content-Length" := Show(n)]))
  {
    RequestPathStripsPrefix(server.options.prefix, req.uri);
  }

  /** A file whose size the store cannot give: 403 (after `Content-Type` was set). */
  lemma SizeFailure(server: StaticFileServer, host: Host, req: Request, prior: Reply, t: int)
    requires ReachesFile(server, host, req, prior, t)
    requires !(req.httpMethod == Get && Unmodified(host, req.ifModifiedSince, t))
    requires server.fs.size(PathOf(server, req)).Err?
    ensures server.Respond(host, req, prior) == Ok(Typed(server, host, req, prior).(status := Forbidden))
  {
    RequestPathStripsPrefix(server.options.prefix, req.uri);
  }

  /** A GET whose file the store cannot open from the start position: 403. */
  lemma OpenFailure(server: StaticFileServer, host: Host, req: Request, prior: Reply, t: int, n: u64)
    requires ReachesFile(server, host, req, prior, t) && req.httpMethod == Get
    requires !Unmodified(host, req.ifModifiedSince, t)
    requires server.fs.size(PathOf(server, req)) == Ok(n)
    requires var range := RequestedRange(req.range);
      server.fs.openAt(PathOf(server, req), Some(if range.Ok? then range.value.start else 0)).Err?
    ensures server.Respond(host, req, prior) == Ok(Typed(server, host, req, prior).(status := Forbidden))
  {
    RequestPathStripsPrefix(server.options.prefix, req.uri);
  }

  // ----- GET: the whole file or a range -----

  /** No `Range` header, or one with a `,`: the header is not used. */
  lemma RangeNotUsed(header: Option<string>)
    requires header.None? || ',' in header.value
    ensures !RequestedRange(header).Ok?
  {
    if header.None? {
      NoMatch("");
    }
  }

  /**
   * A GET without a usable range: 200, the bytes the store opens from 0 as
   * the body, and no `Content-Length` or `Content-Range` set.
   */
  lemma WholeFile(server: StaticFileServer, host: Host, req: Request, prior: Reply, t: int, n: u64, bytes: seq<byte>)
    requires ReachesFile(server, host, req, prior, t) && req.httpMethod == Get
    requires !Unmodified(host, req.ifModifiedSince, t)
    requires server.fs.size(PathOf(server, req)) == Ok(n)
    requires !RequestedRange(req.range).Ok?
    requires server.fs.openAt(PathOf(server, req), Some(0)) == Ok(bytes)
    ensures server.Respond(host, req, prior) == Ok(Opened(server, host, req, prior, t).(body := Streamed(bytes)))
  {
    RequestPathStripsPrefix(server.options.prefix, req.uri);
  }

  /** A GET with a usable range, once the store has opened the file from its start, replies by `PartialReply`. */
  lemma SendsRange(server: StaticFileServer, host: Host, req: Request, prior: Reply, t: int, n: u64,
                   range: Range, bytes: seq<byte>)
    requires ReachesFile(server, host, req, prior, t) && req.httpMethod == Get
    requires !Unmodified(host, req.ifModifiedSince, t)
    requires server.fs.size(PathOf(server, req)) == Ok(n)
    requires RequestedRange(req.range) == Ok(range)
    requires server.fs.openAt(PathOf(server, req), Some(range.start)) == Ok(bytes)
    ensures server.Respond(host, req, prior) == PartialReply(range, n, bytes, Opened(server, host, req, prior, t))
  {
    RequestPathStripsPrefix(server.options.prefix, req.uri);
  }

  /** `PartialReply` on a closed range `typ=s-e` with no overflow. */
  lemma ClosedPartial(typ: string, s: u64, e: u64, n: u64, bytes: seq<byte>, sent: Reply)
    requires s <= e && s <= n && e + 1 < U64_LIMIT && n - s + 1 < U64_LIMIT
    ensures PartialReply(Range(typ, s, Some(e)), n, bytes, sent) == Ok(sent.(
        status := PartialContent,
        headers := sent.headers
          ["Content-Length" := Show(e - s + 1)]
          ["Content-Range" := typ + "=" + Show(s) + "-" + Show(e + 1) + "/" + Show(n)],
        body := Streamed(Take(bytes, e - s + 1))))
  {
  }

  /** `PartialReply` on an open range `typ=s-` with no overflow. */
  lemma OpenPartial(typ: string, s: u64, n: u64, bytes: seq<byte>, sent: Reply)
    requires s <= n && n + 1 < U64_LIMIT
    ensures PartialReply(Range(typ, s, None), n, bytes, sent) == Ok(sent.(
        status := PartialContent,
        headers := sent.headers
          ["Content-Length" := Show(n - s + 1)]
          ["Content-Range" := typ + "=" + Show(s) + "-" + Show(n + 1) + "/" + Show(n)],
        body := Streamed(bytes)))
  {
  }

  /**
   * A GET with the closed range `typ=s-e` inside a file of `n` bytes: 206,
   * `Content-Length: e-s+1`, `Content-Range: typ=s-(e+1)/n`, and at most
   * `e-s+1` of the bytes opened from `s` as the body.
   */
  lemma ClosedRangeReply(server: StaticFileServer, host: Host, req: Request, prior: Reply, t: int, n: u64,
                         typ: string, s: u64, e: u64, bytes: seq<byte>)
    requires ReachesFile(server, host, req, prior, t) && req.httpMethod == Get
    requires !Unmodified(host, req.ifModifiedSince, t)
    requires server.fs.size(PathOf(server, req)) == Ok(n)
    requires RequestedRange(req.range) == Ok(Range(typ, s, Some(e)))
    requires s <= e && s <= n && e + 1 < U64_LIMIT && n - s + 1 < U64_LIMIT
    requires server.fs.openAt(PathOf(server, req), Some(s)) == Ok(bytes)
    ensures var sent := Opened(server, host, req, prior, t);
      server.Respond(host, req, prior) == Ok(sent.(
        status := PartialContent,
        headers := sent.headers
          ["Content-Length" := Show(e - s + 1)]
          ["Content-Range" := typ + "=" + Show(s) + "-" + Show(e + 1) + "/" + Show(n)],
        body := Streamed(Take(bytes, e - s + 1))))
  {
    SendsRange(server, host, req, prior, t, n, Range(typ, s, Some(e)), bytes);
    ClosedPartial(typ, s, e, n, bytes, Opened(server, host, req, prior, t));
  }

  /**
   * When the bytes opened from `s` are exactly the `n - s` bytes after `s`
   * (as the embedded store opens them), a closed range inside the file
   * sends the `e - s + 1` bytes from `s` to `e` and announces exactly that
   * many.
   */
  lemma ClosedRangeExact(typ: string, s: u64, e: u64, n: u64, bytes: seq<byte>, sent: Reply)
    requires s <= e < n && n + 1 < U64_LIMIT && |bytes| == n - s
    ensures var r := PartialReply(Range(typ, s, Some(e)), n, bytes, sent);
      && r.Ok? && r.value.status == PartialContent
      && r.value.body == Streamed(bytes[..e - s + 1])
      && r.value.headers["Content-Length"] == Show(e - s + 1)
  {
    ClosedPartial(typ, s, e, n, bytes, sent);
    LengthIsNotRange();
  }

  /**
   * A GET with the open range `typ=s-` in a file of `n` bytes: 206,
   * `Content-Length: n-s+1` (one more than the bytes that follow `s`),
   * `Content-Range: typ=s-(n+1)/n`, and the bytes opened from `s`.
   */
  lemma OpenRangeReply(server: StaticFileServer, host: Host, req: Request, prior: Reply, t: int, n: u64,
                       typ: string, s: u64, bytes: seq<byte>)
    requires ReachesFile(server, host, req, prior, t) && req.httpMethod == Get
    requires !Unmodified(host, req.ifModifiedSince, t)
    requires server.fs.size(PathOf(server, req)) == Ok(n)
    requires RequestedRange(req.range) == Ok(Range(typ, s, None))
    requires s <= n && n + 1 < U64_LIMIT
    requires server.fs.openAt(PathOf(server, req), Some(s)) == Ok(bytes)
    ensures var sent := Opened(server, host, req, prior, t);
      server.Respond(host, req, prior) == Ok(sent.(
        status := PartialContent,
        headers := sent.headers
          ["Content-Length" := Show(n - s + 1)]
          ["Content-Range" := typ + "=" + Show(s) + "-" + Show(n + 1) + "/" + Show(n)],
        body := Streamed(bytes)))
  {
    SendsRange(server, host, req, prior, t, n, Range(typ, s, None), bytes);
    OpenPartial(typ, s, n, bytes, Opened(server, host, req, prior, t));
  }

  /**
   * When the bytes opened from `s` are exactly the `n - s` bytes after `s`
   * (as the embedded store opens them), an open range announces one byte
   * more than it sends.
   */
  lemma OpenRangeOverstates(typ: string, s: u64, n: u64, bytes: seq<byte>, sent: Reply)
    requires s <= n && n + 1 < U64_LIMIT && |bytes| == n - s
    ensures var r := PartialReply(Range(typ, s, None), n, bytes, sent);
      && r.Ok? && r.value.status == PartialContent
      && r.value.body == Streamed(bytes)
      && r.value.headers["Content-Length"] == Show(|bytes| + 1)
  {
    OpenPartial(typ, s, n, bytes, sent);
    LengthIsNotRange();
  }

  lemma LengthIsNotRange()
    ensures "Content-Length" != "Content-Range"
  {
    assert "Content-Length"[8] != "Content-Range"[8];
  }

  /** A range that starts past the end of the file: `size - start` underflows and panics. */
  lemma RangePastEndPanics(server: StaticFileServer, host: Host, req: Request, prior: Reply, t: int, n: u64, r: Range)
    requires ReachesFile(server, host, req, prior, t) && req.httpMethod == Get
    requires !Unmodified(host, req.ifModifiedSince, t)
    requires server.fs.size(PathOf(server, req)) == Ok(n)
    requires RequestedRange(req.range) == Ok(r) && n < r.start
    requires server.fs.openAt(PathOf(server, req), Some(r.start)).Ok?
    ensures server.Respond(host, req, prior) == Panic(SubtractOverflow)
  {
    RequestPathStripsPrefix(server.options.prefix, req.uri);
  }

  /** A closed range that ends before it starts: `Range::len` underflows and panics. */
  lemma ReversedRangePanics(server: StaticFileServer, host: Host, req: Request, prior: Reply, t: int, n: u64,
                            typ: string, s: u64, e: u64)
    requires ReachesFile(server, host, req, prior, t) && req.httpMethod == Get
    requires !Unmodified(host, req.ifModifiedSince, t)
    requires server.fs.size(PathOf(server, req)) == Ok(n)
    requires RequestedRange(req.range) == Ok(Range(typ, s, Some(e))) && e < s <= n
    requires server.fs.openAt(PathOf(server, req), Some(s)).Ok?
    ensures server.Respond(host, req, prior) == Panic(SubtractOverflow)
  {
    RequestPathStripsPrefix(server.options.prefix, req.uri);
  }

  /**
   * A closed range ending at `u64::MAX` panics on an addition: in `len` when
   * it starts at 0, otherwise at `start + content_length`.
   */
  lemma RangeEndAtMaxPanics(server: StaticFileServer, host: Host, req: Request, prior: Reply, t: int, n: u64,
                            typ: string, s: u64)
    requires ReachesFile(server, host, req, prior, t) && req.httpMethod == Get
    requires !Unmodified(host, req.ifModifiedSince, t)
    requires server.fs.size(PathOf(server, req)) == Ok(n)
    requires RequestedRange(req.range) == Ok(Range(typ, s, Some(U64_LIMIT - 1))) && s <= n
    requires server.fs.openAt(PathOf(server, req), Some(s)).Ok?
    ensures server.Respond(host, req, prior) == Panic(AddOverflow)
  {
    RequestPathStripsPrefix(server.options.prefix, req.uri);
  }
}
