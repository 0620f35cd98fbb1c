/**
 * The fairing of src/lib.rs over the embedded store of src/fs/embedded.rs:
 * `path_valid` accepts package keys only, so nothing but a stored file is
 * ever served (no listing, no redirect); an open range reports one byte
 * more than it sends; and the responses the repository's tests expect for
 * a package holding `hello.txt`, and for a directory on any store.
 */
module EmbeddedServing {
  import opened Base
  import opened Text
  import opened Decimal
  import opened RangeHeader
  import opened FileSystems
  import opened ServerOptions
  import opened Embedded
  import opened Server
  import opened ResponseFacts

  /** With the embedded store, a path that is not a key is refused with 403, directories included. */
  lemma OnlyKeysServed(store: EmbeddedFileSystem, options: Options, host: Host, req: Request, prior: Reply)
    requires StaticFileServer(store.AsFileSystem(), options).Handles(req, prior)
    requires PathOf(StaticFileServer(store.AsFileSystem(), options), req) !in store.package.files
    ensures StaticFileServer(store.AsFileSystem(), options).Respond(host, req, prior) == Ok(prior.(status := Forbidden))
  {
    var server := StaticFileServer(store.AsFileSystem(), options);
    StoreLookups(store, PathOf(server, req), 0);
    RefusedPath(server, host, req, prior);
  }

  /** Opening a stored file from `s` inside it gives the data from `start + s` to the file's end. */
  lemma StoredBytesFrom(store: EmbeddedFileSystem, p: string, s: u64)
    requires p in store.package.files && InBounds(store.package.files[p], |store.package.data|)
    requires s <= store.package.files[p].len
    ensures var f := store.package.files[p];
      store.AsFileSystem().openAt(p, Some(s)) == Ok(store.package.data[f.start + s..f.start + f.len])
  {
    StoreLookups(store, p, s);
  }

  /**
   * A stored key with an extension reaches the file branch, with the
   * record's time and size (a decoded package's times are all ones chrono
   * can represent).
   */
  lemma ReachesStoredFile(store: EmbeddedFileSystem, options: Options, host: Host, req: Request, prior: Reply)
    requires var server := StaticFileServer(store.AsFileSystem(), options);
      server.Handles(req, prior) && PathOf(server, req) in store.package.files && host.extension(PathOf(server, req)).Some?
    requires var server := StaticFileServer(store.AsFileSystem(), options);
      IsTimestamp(store.package.files[PathOf(server, req)].lastModified)
    ensures var server := StaticFileServer(store.AsFileSystem(), options);
      var f := store.package.files[PathOf(server, req)];
      && ReachesFile(server, host, req, prior, f.lastModified as int)
      && server.fs.size(PathOf(server, req)) == Ok(f.len)
  {
    StoreLookups(store, PathOf(StaticFileServer(store.AsFileSystem(), options), req), 0);
  }

  // ----- the repository's tests -----

  /** The package of the tests: `hello.txt`, twelve bytes at offset 0 of twelve bytes of data, modified at second `m`. */
  predicate HelloPackage(store: EmbeddedFileSystem, m: i64)
  {
    && "hello.txt" in store.package.files
    && store.package.files["hello.txt"] == InternalFile(m, 12, 0)
    && IsTimestamp(m)
    && |store.package.data| == 12
  }

  /** A host whose extension and MIME lookups do what the tests rely on for `hello.txt`. */
  predicate TextHost(host: Host)
  {
    host.extension("hello.txt") == Some("txt") && host.mimeType("txt") == "text/plain"
  }

  /** The uri `/test/hello.txt`, given piece by piece. */
  predicate HelloUri(uri: string)
  {
    |uri| == 15 && uri[..6] == "/test/" && uri[6..] == "hello.txt"
  }

  lemma HelloPath(store: EmbeddedFileSystem, host: Host, req: Request, prior: Reply, m: i64)
    requires HelloPackage(store, m) && TextHost(host) && HelloUri(req.uri) && prior.status == NotFound
    requires req.httpMethod == Get || req.httpMethod == Head
    ensures var server := StaticFileServer(store.AsFileSystem(), Options(false, "/test/"));
      && server.Handles(req, prior)
      && PathOf(server, req) == "hello.txt"
      && ReachesFile(server, host, req, prior, m as int)
      && Typed(server, host, req, prior) == prior.(headers := prior.headers["Content-Type" := "text/plain"])
  {
    ReachesStoredFile(store, Options(false, "/test/"), host, req, prior);
  }

  /** GET `/test/hello.txt` under the prefix `/test`: 200, `text/plain`, the twelve bytes. */
  lemma HelloExample(store: EmbeddedFileSystem, host: Host, req: Request, prior: Reply, m: i64)
    requires HelloPackage(store, m) && TextHost(host) && prior.status == NotFound
    requires req.httpMethod == Get && HelloUri(req.uri) && req.ifModifiedSince.None? && req.range.None?
    ensures StaticFileServer(store.AsFileSystem(), Options(false, "/test/")).Respond(host, req, prior)
      == Ok(Reply(StatusOk,
           prior.headers["Content-Type" := "text/plain"]["Accept-Ranges" := "bytes"]["Last-Modified" := host.formatHttpDate(m as int)],
           Streamed(store.package.data)))
  {
    var server := StaticFileServer(store.AsFileSystem(), Options(false, "/test/"));
    HelloPath(store, host, req, prior, m);
    StoreLookups(store, "hello.txt", 0);
    assert store.package.data[0..12] == store.package.data;
    RangeNotUsed(req.range);
    WholeFile(server, host, req, prior, m as int, 12, store.package.data);
  }

  lemma ShowSmall()
    ensures Show(6) == "6" && Show(13) == "13"
  {
    assert Show(13) == Show(1) + [DigitChar(3)];
  }

  /** The header `bytes=5-10`, given piece by piece, is usable and names bytes 5 to 10. */
  lemma ClosedHeader(h: string)
    requires |h| == 10 && h[..5] == "bytes" && h[5..8] == "=5-" && h[8..] == "10"
    ensures RequestedRange(Some(h)) == Ok(Range("bytes", 5, Some(10)))
  {
    ClosedExample(h);
    forall i | 0 <= i < |h| ensures h[i] != ',' {
      if i < 5 {
        assert h[i] == h[..5][i];
      } else if i < 8 {
        assert h[i] == h[5..8][i - 5];
      } else {
        assert h[i] == h[8..][i - 8];
      }
    }
  }

  /** The header `bytes=0-`, given piece by piece, is usable and names everything from byte 0. */
  lemma OpenHeader(h: string)
    requires |h| == 8 && h[..5] == "bytes" && h[5..] == "=0-"
    ensures RequestedRange(Some(h)) == Ok(Range("bytes", 0, None))
  {
    OpenExample(h);
    forall i | 0 <= i < |h| ensures h[i] != ',' {
      if i < 5 {
        assert h[i] == h[..5][i];
      } else {
        assert h[i] == h[5..][i - 5];
      }
    }
  }

  /** GET `/test/hello.txt` with `Range: bytes=5-10`: 206, `Content-Length: 6`, bytes 5 to 10. */
  lemma HelloRangeExample(store: EmbeddedFileSystem, host: Host, req: Request, prior: Reply, m: i64, h: string)
    requires HelloPackage(store, m) && TextHost(host) && prior.status == NotFound
    requires req.httpMethod == Get && HelloUri(req.uri) && req.ifModifiedSince.None? && req.range == Some(h)
    requires |h| == 10 && h[..5] == "bytes" && h[5..8] == "=5-" && h[8..] == "10"
    ensures var r := StaticFileServer(store.AsFileSystem(), Options(false, "/test/")).Respond(host, req, prior);
      && r.Ok? && r.value.status == PartialContent
      && r.value.headers["Content-Length"] == "6"
      && r.value.body == Streamed(store.package.data[5..11])
  {
    var server := StaticFileServer(store.AsFileSystem(), Options(false, "/test/"));
    HelloRangeSends(store, host, req, prior, m, h);
    HelloRangeReply(store.package.data, Opened(server, host, req, prior, m as int));
  }

  /** The reply for bytes 5 to 10 of a twelve-byte file, from the bytes the store yields from offset 5. */
  lemma HelloRangeReply(data: seq<byte>, sent: Reply)
    requires |data| == 12
    ensures var r := PartialReply(Range("bytes", 5, Some(10)), 12, data[5..12], sent);
      && r.Ok? && r.value.status == PartialContent
      && r.value.headers["Content-Length"] == "6"
      && r.value.body == Streamed(data[5..11])
  {
    ClosedRangeExact("bytes", 5, 10, 12, data[5..12], sent);
    assert data[5..12][..6] == data[5..11];
    ShowSmall();
  }

  lemma HelloRangeSends(store: EmbeddedFileSystem, host: Host, req: Request, prior: Reply, m: i64, h: string)
    requires HelloPackage(store, m) && TextHost(host) && prior.status == NotFound
    requires req.httpMethod == Get && HelloUri(req.uri) && req.ifModifiedSince.None? && req.range == Some(h)
    requires |h| == 10 && h[..5] == "bytes" && h[5..8] == "=5-" && h[8..] == "10"
    ensures var server := StaticFileServer(store.AsFileSystem(), Options(false, "/test/"));
      && StartsWith(req.uri, server.options.prefix) && host.extension(PathOf(server, req)).Some?
      && server.Respond(host, req, prior)
         == PartialReply(Range("bytes", 5, Some(10)), 12, store.package.data[5..12], Opened(server, host, req, prior, m as int))
  {
    var server := StaticFileServer(store.AsFileSystem(), Options(false, "/test/"));
    HelloPath(store, host, req, prior, m);
    StoredBytesFrom(store, "hello.txt", 5);
    ClosedHeader(h);
    SendsRange(server, host, req, prior, m as int, 12, Range("bytes", 5, Some(10)), store.package.data[5..12]);
  }

  /**
   * GET `/test/hello.txt` with `Range: bytes=0-`: 206 and all twelve bytes,
   * announced as `Content-Length: 13`.
   */
  lemma HelloOpenRangeExample(store: EmbeddedFileSystem, host: Host, req: Request, prior: Reply, m: i64, h: string)
    requires HelloPackage(store, m) && TextHost(host) && prior.status == NotFound
    requires req.httpMethod == Get && HelloUri(req.uri) && req.ifModifiedSince.None? && req.range == Some(h)
    requires |h| == 8 && h[..5] == "bytes" && h[5..] == "=0-"
    ensures var r := StaticFileServer(store.AsFileSystem(), Options(false, "/test/")).Respond(host, req, prior);
      && r.Ok? && r.value.status == PartialContent
      && r.value.body == Streamed(store.package.data) && |store.package.data| == 12
      && r.value.headers["Content-Length"] == "13"
  {
    var server := StaticFileServer(store.AsFileSystem(), Options(false, "/test/"));
    HelloOpenRangeSends(store, host, req, prior, m, h);
    OpenRangeOverstates("bytes", 0, 12, store.package.data, Opened(server, host, req, prior, m as int));
    ShowSmall();
  }

  lemma HelloOpenRangeSends(store: EmbeddedFileSystem, host: Host, req: Request, prior: Reply, m: i64, h: string)
    requires HelloPackage(store, m) && TextHost(host) && prior.status == NotFound
    requires req.httpMethod == Get && HelloUri(req.uri) && req.ifModifiedSince.None? && req.range == Some(h)
    requires |h| == 8 && h[..5] == "bytes" && h[5..] == "=0-"
    ensures var server := StaticFileServer(store.AsFileSystem(), Options(false, "/test/"));
      && StartsWith(req.uri, server.options.prefix) && host.extension(PathOf(server, req)).Some?
      && server.Respond(host, req, prior)
         == PartialReply(Range("bytes", 0, None), 12, store.package.data, Opened(server, host, req, prior, m as int))
  {
    var server := StaticFileServer(store.AsFileSystem(), Options(false, "/test/"));
    HelloPath(store, host, req, prior, m);
    StoreLookups(store, "hello.txt", 0);
    OpenHeader(h);
    assert store.package.data[0..12][0..] == store.package.data;
    SendsRange(server, host, req, prior, m as int, 12, Range("bytes", 0, None), store.package.data);
  }

  /** GET `/src` with listing on and the prefix `/`, on any store where `src` is a directory: 302 to `/src/`. */
  lemma RedirectExample(fs: FileSystem, host: Host, req: Request, prior: Reply)
    requires fs.pathValid("src") && !fs.isFile("src") && fs.isDir("src")
    requires prior.status == NotFound && req.httpMethod == Get
    requires |req.uri| == 4 && req.uri[..1] == "/" && req.uri[1..] == "src"
    ensures StaticFileServer(fs, Options(true, "/")).Respond(host, req, prior)
      == Ok(prior.(status := Found, headers := prior.headers["Location" := "/src/"]))
  {
    var server := StaticFileServer(fs, Options(true, "/"));
    assert PathOf(server, req) == "src";
    RedirectsDirectory(server, host, req, prior);
    assert "/" + "src" + "/" == "/src/";
  }
}
