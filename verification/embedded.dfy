/**
 * The embedded package store (src/fs/embedded.rs): decoding a package blob
 * into its path index and data, reading one file's bytes back, and deriving
 * directories from the flat path index.
 *
 * Package layout: an 8-byte big-endian `meta_len`, then records of
 * `path_len` (u64), the UTF-8 path, `last_modified` (i64 seconds), `len`
 * (u64) and `start` (u64, relative to the data), then the data.
 */
module Embedded {
  import opened Base
  import opened ByteOrder
  import Utf8
  import opened Text
  import opened FileSystems

  datatype InternalFile = InternalFile(lastModified: i64, len: u64, start: u64)

  datatype Package = Package(files: map<string, InternalFile>, data: seq<byte>)

  // ----- reading through a std::io::Cursor -----

  /** `read_u64::<BigEndian>()` at position `pos`; `None` is an end-of-file error. */
  function ReadU64At(b: seq<byte>, pos: nat): (r: Option<u64>)
    ensures r.Some? <==> pos + 8 <= |b|
  {
    if pos + 8 <= |b| then
      Some(U64At(b, pos))
    else None
  }

  /**
   * What `take(n)` then `read_to_string` sees from position `pos`: up to `n`
   * bytes, fewer when the buffer ends first.
   */
  function TakeAt(b: seq<byte>, pos: nat, n: nat): seq<byte>
    decreases n
  {
    if n == 0 || pos >= |b| then [] else [b[pos]] + TakeAt(b, pos + 1, n - 1)
  }

  /**
   * The position `seek(SeekFrom::Current(offset))` moves to, or `None` when
   * the target is negative or does not fit in a u64 (an `InvalidInput` error).
   */
  function SeekTarget(pos: nat, offset: i64): (r: Option<nat>)
    ensures r.Some? ==> r.value == pos + offset && r.value < U64_LIMIT
  {
    if pos + offset < 0 || pos + offset >= U64_LIMIT then None else Some(pos + offset)
  }

  /** `std::io::Cursor` over the package bytes. */
  class Cursor {
    const inner: seq<byte>
    var position: nat

    constructor (bytes: seq<byte>)
      ensures inner == bytes && position == 0
    {
      inner := bytes;
      position := 0;
    }

    method ReadU64() returns (r: Option<u64>)
      modifies this
      ensures r == ReadU64At(inner, old(position))
      ensures position == if r.Some? then old(position) + 8 else old(position)
    {
      r := ReadU64At(inner, position);
      if r.Some? {
        position := position + 8;
      }
    }

    method ReadI64() returns (r: Option<i64>)
      modifies this
      ensures r.Some? == ReadU64At(inner, old(position)).Some?
      ensures r.Some? ==> r.value == AsI64(ReadU64At(inner, old(position)).value)
      ensures position == if r.Some? then old(position) + 8 else old(position)
    {
      var v := ReadU64();
      r := if v.Some? then Some(AsI64(v.value)) else None;
    }

    method SeekCurrent(offset: i64) returns (ok: bool)
      modifies this
      ensures ok == SeekTarget(old(position), offset).Some?
      ensures position == if ok then SeekTarget(old(position), offset).value else old(position)
    {
      var target := SeekTarget(position, offset);
      ok := target.Some?;
      if ok {
        position := target.value;
      }
    }
  }

  // ----- Package::from_bytes -----

  datatype RecordRead = RecordRead(path: string, file: InternalFile, end: nat)

  /**
   * One pass of the decoding loop's body from cursor position `start`: the
   * record read and the cursor position after it. The time read is turned
   * into a `DateTime<Utc>` by `Utc.timestamp`, which panics on a time chrono
   * cannot represent, before the length and the start are read.
   */
  function ReadRecord(b: seq<byte>, start: nat): (r: Result<RecordRead>)
    ensures !r.Diverge?
    ensures r.Panic? ==> r == Panic(NO_SUCH_LOCAL_TIME)
    ensures r.Ok? ==> IsTimestamp(r.value.file.lastModified)
  {
    match ReadU64At(b, start)
    case None => Err(UnexpectedEof)
    case Some(pathLen) =>
      match Utf8.Decode(TakeAt(b, start + 8, pathLen))
      case None => Err(InvalidUtf8)
      case Some(path) =>
        match SeekTarget(start + 8, AsI64(pathLen))
        case None => Err(InvalidSeek)
        case Some(p) =>
          if p + 8 > |b| then Err(UnexpectedEof)
          else if !IsTimestamp(AsI64(U64At(b, p))) then Panic(NO_SUCH_LOCAL_TIME)
          else if p + 24 > |b| then Err(UnexpectedEof)
          else Ok(RecordRead(path, InternalFile(AsI64(U64At(b, p)), U64At(b, p + 8), U64At(b, p + 16)), p + 24))
  }

  /**
   * The decoding loop `while read < meta_len`, from cursor position `pos`
   * with `read` metadata bytes counted and `files` built so far.
   *
   * `read += cursor_end - cursor_start` panics when a record moved the cursor
   * backwards (a `path_len` of 2^63 or more seeks back). When a record leaves
   * the cursor where it started, the next pass reads the same record from
   * the same position with the same `read`, forever: that is `Diverge`.
   */
  function DecodeLoop(b: seq<byte>, metaLen: u64, pos: nat, read: u64, files: map<string, InternalFile>)
    : Result<map<string, InternalFile>>
    decreases metaLen - read, 1
  {
    if read >= metaLen then Ok(files) else LoopPass(b, metaLen, pos, read, files)
  }

  /** One pass of the loop's body, and the loop after it. */
  function LoopPass(b: seq<byte>, metaLen: u64, pos: nat, read: u64, files: map<string, InternalFile>)
    : Result<map<string, InternalFile>>
    requires read < metaLen
    decreases metaLen - read, 0
  {
    var r := ReadRecord(b, pos);
    if !r.Ok? then r.PropagateFailure()
    else if r.value.end < pos then Panic("attempt to subtract with overflow")
    else if r.value.end == pos then Diverge
    else if read + (r.value.end - pos) >= U64_LIMIT then Panic("attempt to add with overflow")
    else DecodeLoop(b, metaLen, r.value.end, read + (r.value.end - pos), files[r.value.path := r.value.file])
  }

  /** `Package::from_bytes`, as a function of the bytes. */
  function Decode(b: seq<byte>): Result<Package>
  {
    match ReadU64At(b, 0)
    case None => Err(UnexpectedEof)
    case Some(metaLen) =>
      var files := DecodeLoop(b, metaLen, 8, 0, map[]);
      if !files.Ok? then files.PropagateFailure()
      else if metaLen + 8 >= U64_LIMIT then Panic("attempt to add with overflow")
      else if metaLen + 8 > |b| then Panic("range start index out of range")
      else Ok(Package(files.value, b[metaLen + 8..]))
  }

  /**
   * One pass of the loop body: reads `path_len`, the path through a clone of
   * the cursor, seeks past the path, then reads the time (panicking when
   * chrono cannot represent it), the length and the start.
   */
  method ReadNext(cursor: Cursor) returns (r: Result<RecordRead>)
    modifies cursor
    ensures r == ReadRecord(cursor.inner, old(cursor.position))
    ensures r.Ok? ==> cursor.position == r.value.end
  {
    var pathLen := cursor.ReadU64();
    if pathLen.None? {
      return Err(UnexpectedEof);
    }
    var path := Utf8.Decode(TakeAt(cursor.inner, cursor.position, pathLen.value));
    if path.None? {
      return Err(InvalidUtf8);
    }
    var sought := cursor.SeekCurrent(AsI64(pathLen.value));
    if !sought {
      return Err(InvalidSeek);
    }
    var lastModified := cursor.ReadI64();
    if lastModified.None? {
      return Err(UnexpectedEof);
    }
    if !IsTimestamp(lastModified.value) {
      return Panic(NO_SUCH_LOCAL_TIME);
    }
    var len := cursor.ReadU64();
    if len.None? {
      return Err(UnexpectedEof);
    }
    var start := cursor.ReadU64();
    if start.None? {
      return Err(UnexpectedEof);
    }
    r := Ok(RecordRead(path.value, InternalFile(lastModified.value, len.value, start.value), cursor.position));
  }

  /** The first pass of the decoding loop, once the record it reads is known. */
  lemma DecodeLoopStep(b: seq<byte>, metaLen: u64, pos: nat, read: u64, files: map<string, InternalFile>, r: Result<RecordRead>)
    requires read < metaLen
    requires r == ReadRecord(b, pos)
    ensures DecodeLoop(b, metaLen, pos, read, files) ==
        if !r.Ok? then r.PropagateFailure()
        else if r.value.end < pos then Panic("attempt to subtract with overflow")
        else if r.value.end == pos then Diverge
        else if read + (r.value.end - pos) >= U64_LIMIT then Panic("attempt to add with overflow")
        else DecodeLoop(b, metaLen, r.value.end, read + (r.value.end - pos), files[r.value.path := r.value.file])
  {
  }

  datatype Progress = Progress(read: u64, files: map<string, InternalFile>)

  /**
   * One pass of the decoding loop's body: reads a record, adds the distance
   * the cursor moved to `read`, and inserts the record. On success the loop
   * from the new state has the same outcome as from the old one, and `read`
   * has grown; otherwise the failure is the loop's outcome.
   */
  method Pass(cursor: Cursor, metaLen: u64, read: u64, files: map<string, InternalFile>) returns (next: Result<Progress>)
    requires read < metaLen
    modifies cursor
    ensures next.Ok? ==> read < next.value.read
    ensures next.Ok? ==>
      DecodeLoop(cursor.inner, metaLen, cursor.position, next.value.read, next.value.files)
      == DecodeLoop(cursor.inner, metaLen, old(cursor.position), read, files)
    ensures !next.Ok? ==> DecodeLoop(cursor.inner, metaLen, old(cursor.position), read, files) == next.PropagateFailure()
  {
    var cursorStart := cursor.position;
    var record := ReadNext(cursor);
    DecodeLoopStep(cursor.inner, metaLen, cursorStart, read, files, record);
    if !record.Ok? {
      return record.PropagateFailure();
    }
    var cursorEnd := cursor.position;
    if cursorEnd < cursorStart {
      return Panic("attempt to subtract with overflow");
    }
    if cursorEnd == cursorStart {
      return Diverge;
    }
    if read + (cursorEnd - cursorStart) >= U64_LIMIT {
      return Panic("attempt to add with overflow");
    }
    next := Ok(Progress(read + (cursorEnd - cursorStart), files[record.value.path := record.value.file]));
  }

  /** The decoding loop's outcome, and `Decode` in terms of it. */
  ghost function DecodeAfterMetaLen(b: seq<byte>): (outcome: Result<map<string, InternalFile>>)
    requires ReadU64At(b, 0).Some?
    ensures outcome == DecodeLoop(b, ReadU64At(b, 0).value, 8, 0, map[])
    ensures var metaLen := ReadU64At(b, 0).value;
      Decode(b) == if !outcome.Ok? then outcome.PropagateFailure()
        else if metaLen + 8 >= U64_LIMIT then Panic("attempt to add with overflow")
        else if metaLen + 8 > |b| then Panic("range start index out of range")
        else Ok(Package(outcome.value, b[metaLen + 8..]))
  {
    DecodeLoop(b, ReadU64At(b, 0).value, 8, 0, map[])
  }

  /**
   * `Package::from_bytes`: walks the metadata with a cursor and a `read`
   * counter, inserting one record per pass, then keeps the data suffix.
   * Where the source would loop forever the method returns `Diverge`.
   */
  method FromBytes(bytes: seq<byte>) returns (r: Result<Package>)
    ensures r == Decode(bytes)
  {
    var cursor := new Cursor(bytes);
    var metaLenRead := cursor.ReadU64();
    if metaLenRead.None? {
      return Err(UnexpectedEof);
    }
    var metaLen := metaLenRead.value;
    ghost var outcome := DecodeAfterMetaLen(bytes);
    var files: map<string, InternalFile> := map[];
    var read: u64 := 0;
    while read < metaLen
      invariant cursor.inner == bytes
      invariant DecodeLoop(bytes, metaLen, cursor.position, read, files) == outcome
      decreases metaLen - read
    {
      var next := Pass(cursor, metaLen, read, files);
      if !next.Ok? {
        PropagateTwice<Progress, map<string, InternalFile>, Package>(next);
        return next.PropagateFailure();
      }
      read, files := next.value.read, next.value.files;
    }
    if metaLen + 8 >= U64_LIMIT {
      return Panic("attempt to add with overflow");
    }
    if metaLen + 8 > |bytes| {
      return Panic("range start index out of range");
    }
    r := Ok(Package(files, bytes[metaLen + 8..]));
  }

  // ----- Package::open -----

  /** A record whose byte range lies inside the data. */
  predicate InBounds(f: InternalFile, dataLen: nat)
  {
    f.start + f.len < U64_LIMIT && f.start + f.len <= dataLen
  }

  predicate WellFormed(p: Package)
  {
    forall k | k in p.files :: InBounds(p.files[k], |p.data|)
  }

  /** `Package::open`: the file's bytes `data[start..start + len]`. */
  function Open(p: Package, path: string): (r: Result<seq<byte>>)
    ensures path !in p.files ==> r == Err(FileDoesNotExist)
    ensures path in p.files && InBounds(p.files[path], |p.data|) <==> r.Ok?
    ensures r.Ok? ==> |r.value| == p.files[path].len
    ensures r.Ok? ==> r.value == p.data[p.files[path].start..p.files[path].start + p.files[path].len]
  {
    if path !in p.files then Err(FileDoesNotExist)
    else
      var f := p.files[path];
      if f.start + f.len >= U64_LIMIT then Panic("attempt to add with overflow")
      else if f.start + f.len > |p.data| then Panic("range end index out of range")
      else Ok(p.data[f.start..f.start + f.len])
  }

  /**
   * `EmbeddedFileSystem::open`: the file's bytes from `start` on (all of them
   * when `start` is absent, none when it is at or past the end).
   */
  function OpenFrom(p: Package, path: string, start: Option<u64>): (r: Result<seq<byte>>)
    ensures r.Ok? <==> Open(p, path).Ok?
    ensures r.Ok? && start.None? ==> r.value == Open(p, path).value
    ensures r.Ok? && start.Some? ==>
      r.value == (if start.value <= |Open(p, path).value| then Open(p, path).value[start.value..] else [])
  {
    var reader := Open(p, path);
    if !reader.Ok? then reader
    else match start
      case None => reader
      case Some(s) => Ok(if s <= |reader.value| then reader.value[s..] else [])
  }

  // ----- Package::is_dir -----

  /** The path with one leading `/` removed, as the package keys carry none. */
  function StripRoot(path: string): string
  {
    if StartsWith(path, "/") then ReplaceFirst(path, "/", "") else path
  }

  /** `/` is a directory; otherwise some key lies strictly below the path. */
  predicate IsDirectory(p: Package, path: string)
  {
    path == "/" || exists k | k in p.files :: StartsWith(k, StripRoot(path) + "/")
  }

  /** The test the loop applies to one key: a prefix match followed by `/`. */
  lemma ChildTest(k: string, dir: string)
    ensures StartsWith(k, dir + "/") <==> StartsWith(k, dir) && StartsWith(ReplaceFirst(k, dir, ""), "/")
  {
    if StartsWith(k, dir) {
      ReplaceFirstAtStart(k, dir, "");
      assert ReplaceFirst(k, dir, "") == k[|dir|..];
      if StartsWith(k, dir + "/") {
        assert k[|dir|] == (dir + "/")[|dir|];
      }
      if StartsWith(k[|dir|..], "/") {
        assert k[..|dir| + 1] == k[..|dir|] + [k[|dir|]];
      }
    }
  }

  /** `Package::is_dir`: a scan of the keys with an early return. */
  method IsDir(p: Package, path: string) returns (b: bool)
    ensures b == IsDirectory(p, path)
  {
    if path == "/" {
      return true;
    }
    var pathStr := path;
    if StartsWith(pathStr, "/") {
      pathStr := ReplaceFirst(pathStr, "/", "");
    }
    var remaining := p.files.Keys;
    while remaining != {}
      invariant remaining <= p.files.Keys
      invariant forall k | k in p.files && k !in remaining :: !StartsWith(k, pathStr + "/")
      decreases |remaining|
    {
      var k :| k in remaining;
      remaining := remaining - {k};
      ChildTest(k, pathStr);
      if !StartsWith(k, pathStr) {
        continue;
      }
      var right := ReplaceFirst(k, pathStr, "");
      if StartsWith(right, "/") {
        return true;
      }
    }
    return false;
  }

  // ----- Package::entries -----

  function EntryName(e: Entry): string
  {
    e.name
  }

  /**
   * What key `k` contributes to the listing of directory `dir`: nothing when
   * it does not lie below `dir`; a `Dir` named by its next segment when it
   * lies deeper; otherwise a `File` with the record's length and time.
   */
  function EntryFor(dir: string, k: string, f: InternalFile): Option<Entry>
  {
    if !StartsWith(k, dir) then None
    else
      var right := ReplaceFirst(k, dir, "");
      if !StartsWith(right, "/") then None
      else
        var rest := ReplaceFirst(right, "/", "");
        if '/' in rest then Some(Dir(FirstSegment(rest, '/')))
        else Some(File(rest, f.len, f.lastModified))
  }

  /**
   * Listing entries come exactly from the keys below `dir`: the rest of the
   * key after `dir/` names a `File` when it has no further `/`, and otherwise
   * a `Dir` named by its first segment. Either way the name holds no `/`.
   */
  lemma EntryForShape(dir: string, k: string, f: InternalFile)
    ensures EntryFor(dir, k, f).Some? <==> StartsWith(k, dir + "/")
    ensures StartsWith(k, dir + "/") ==>
      EntryFor(dir, k, f) == Some(
        var rest := k[|dir| + 1..];
        if '/' in rest then Dir(FirstSegment(rest, '/')) else File(rest, f.len, f.lastModified))
    ensures EntryFor(dir, k, f).Some? ==> '/' !in EntryFor(dir, k, f).value.name
  {
    ChildTest(k, dir);
    if StartsWith(k, dir + "/") {
      ReplaceFirstAtStart(k, dir, "");
      var right := k[|dir|..];
      assert ReplaceFirst(k, dir, "") == right;
      assert StartsWith(right, "/");
      ReplaceFirstAtStart(right, "/", "");
      assert ReplaceFirst(right, "/", "") == right[1..] == k[|dir| + 1..];
    }
  }

  /** The entries key `k` contributes to the listing of `dir`: none or one. */
  function Contribution(p: Package, dir: string, k: string): seq<Entry>
  {
    if k !in p.files then []
    else match EntryFor(dir, k, p.files[k]) case Some(e) => [e] case None => []
  }

  function Contributions(p: Package, dir: string): string -> seq<Entry>
  {
    k => Contribution(p, dir, k)
  }

  /**
   * The listing of `path`, with the keys visited in ascending order (the
   * source visits them in HashMap order) and then sorted by name.
   */
  function Listing(p: Package, path: string): seq<Entry>
  {
    SortBy(FlatMap(SortedElements(p.files.Keys), Contributions(p, StripRoot(path))), EntryName)
  }

  /** Visiting every key once, in any order, collects the listing's entries. */
  lemma VisitOrderIrrelevant(p: Package, dir: string, visited: seq<string>)
    requires NoDuplicates(visited)
    requires forall k :: k in visited <==> k in p.files
    ensures multiset(FlatMap(visited, Contributions(p, dir)))
      == multiset(FlatMap(SortedElements(p.files.Keys), Contributions(p, dir)))
  {
    var keys := SortedElements(p.files.Keys);
    DistinctEnumerations(visited, keys);
    FlatMapPermutation(visited, keys, Contributions(p, dir));
  }

  /** The loop body of `Package::entries` for one key, step by step. */
  method Visit(p: Package, dir: string, k: string, entries: seq<Entry>) returns (entries': seq<Entry>)
    requires k in p.files
    ensures entries' == entries + FlatMap([k], Contributions(p, dir))
  {
    assert FlatMap([k], Contributions(p, dir)) == Contribution(p, dir, k);
    entries' := entries;
    if !StartsWith(k, dir) {
      return;
    }
    var right := ReplaceFirst(k, dir, "");
    if !StartsWith(right, "/") {
      return;
    }
    var rest := ReplaceFirst(right, "/", "");
    if '/' in rest {
      entries' := entries' + [Dir(FirstSegment(rest, '/'))];
    } else {
      entries' := entries' + [File(rest, p.files[k].len, p.files[k].lastModified)];
    }
  }

  /**
   * `Package::entries`: pushes one entry per key below the directory,
   * visiting the keys in any order, then sorts by name.
   */
  method Entries(p: Package, path: string) returns (r: Result<seq<Entry>>)
    ensures r.Ok?
    ensures SortedBy(r.value, EntryName)
    ensures multiset(r.value) == multiset(Listing(p, path))
  {
    var pathStr := path;
    if StartsWith(pathStr, "/") {
      pathStr := ReplaceFirst(pathStr, "/", "");
    }
    var entries: seq<Entry> := [];
    var remaining := p.files.Keys;
    ghost var visited: seq<string> := [];
    while remaining != {}
      invariant remaining <= p.files.Keys
      invariant forall k :: k in visited <==> k in p.files && k !in remaining
      invariant NoDuplicates(visited)
      invariant entries == FlatMap(visited, Contributions(p, pathStr))
      decreases |remaining|
    {
      var k :| k in remaining;
      remaining := remaining - {k};
      FlatMapAppend(visited, [k], Contributions(p, pathStr));
      visited := visited + [k];
      entries := Visit(p, pathStr, k, entries);
    }
    VisitOrderIrrelevant(p, pathStr, visited);
    entries := SortBy(entries, EntryName);
    r := Ok(entries);
  }

  /** The listing holds exactly the entries the keys below the directory contribute. */
  lemma ListingMembers(p: Package, path: string, e: Entry)
    ensures e in Listing(p, path) <==> exists k | k in p.files :: e in Contribution(p, StripRoot(path), k)
  {
    var dir := StripRoot(path);
    var keys := SortedElements(p.files.Keys);
    SortByMembers(FlatMap(keys, Contributions(p, dir)), EntryName, e);
    FlatMapMembers(keys, Contributions(p, dir));
    if e in Listing(p, path) {
      var k :| k in keys && e in Contributions(p, dir)(k);
      assert k in p.files && e in Contribution(p, dir, k);
    }
    if exists k | k in p.files :: e in Contribution(p, dir, k) {
      var k :| k in p.files && e in Contribution(p, dir, k);
      assert k in keys && e in Contributions(p, dir)(k);
    }
  }

  /** A `File` entry in the listing of `path` is the record stored under `path/name`. */
  lemma ListedFile(p: Package, path: string, e: Entry)
    requires e in Listing(p, path) && e.File?
    ensures StripRoot(path) + "/" + e.name in p.files
    ensures p.files[StripRoot(path) + "/" + e.name].len == e.size
    ensures p.files[StripRoot(path) + "/" + e.name].lastModified == e.lastModified
  {
    ListingMembers(p, path, e);
    var k :| k in p.files && e in Contribution(p, StripRoot(path), k);
    ContributedFile(p, StripRoot(path), k, e);
  }

  lemma ContributedFile(p: Package, dir: string, k: string, e: Entry)
    requires k in p.files && e in Contribution(p, dir, k) && e.File?
    ensures k == dir + "/" + e.name
    ensures p.files[k].len == e.size && p.files[k].lastModified == e.lastModified
  {
    EntryForShape(dir, k, p.files[k]);
    assert k == k[..|dir| + 1] + k[|dir| + 1..];
  }

  /** A `Dir` entry in the listing of `path` names a directory below it. */
  lemma ListedDir(p: Package, path: string, e: Entry)
    requires e in Listing(p, path) && e.Dir?
    ensures IsDirectory(p, "/" + (StripRoot(path) + "/" + e.name))
  {
    ListingMembers(p, path, e);
    var k :| k in p.files && e in Contribution(p, StripRoot(path), k);
    ContributedDir(p, StripRoot(path), k, e);
  }

  lemma ContributedDir(p: Package, dir: string, k: string, e: Entry)
    requires k in p.files && e in Contribution(p, dir, k) && e.Dir?
    ensures IsDirectory(p, "/" + (dir + "/" + e.name))
  {
    EntryForShape(dir, k, p.files[k]);
    SubdirectoryPrefix(k, dir, e.name);
    StripRootOfRooted(dir + "/" + e.name);
  }

  lemma StripRootOfRooted(s: string)
    ensures StripRoot("/" + s) == s
  {
    ReplaceFirstAtStart("/" + s, "/", "");
    assert ("/" + s)[1..] == s;
  }

  /** The first segment after `dir/` of a deeper key is a directory prefix of the key. */
  lemma SubdirectoryPrefix(k: string, dir: string, name: string)
    requires StartsWith(k, dir + "/") && '/' in k[|dir| + 1..]
    requires name == FirstSegment(k[|dir| + 1..], '/')
    ensures StartsWith(k, dir + "/" + name + "/")
  {
    var rest := k[|dir| + 1..];
    assert k == (dir + "/") + rest;
    assert |name| < |rest|;
    assert rest[..|name| + 1] == name + "/";
    assert k[..|dir + "/" + name + "/"|] == (dir + "/") + rest[..|name| + 1];
  }

  /** Directories are found for every path a key lies below, and only for those. */
  lemma DirectoryOfKey(p: Package, k: string, i: nat)
    requires k in p.files && 0 < i < |k| && k[i] == '/' && k[0] != '/'
    ensures IsDirectory(p, k[..i])
    ensures IsDirectory(p, "/" + k[..i])
  {
    var d := k[..i];
    assert StartsWith(k, d + "/") by {
      assert k[..i + 1] == d + "/";
    }
    assert StripRoot(d) == d by {
      assert !StartsWith(d, "/");
    }
    ReplaceFirstAtStart("/" + d, "/", "");
    assert ("/" + d)[1..] == d;
  }

  // ----- EmbeddedFileSystem -----

  datatype EmbeddedFileSystem = EmbeddedFileSystem(package: Package)
  {
    /** The `FileSystem` implementation over the decoded package. */
    function AsFileSystem(): FileSystem
    {
      FileSystem(
        path => path in package.files,
        path => IsDirectory(package, path),
        path => if path in package.files then Ok(package.files[path].lastModified as int) else Err(FileDoesNotExist),
        path => if path in package.files then Ok(package.files[path].len) else Err(FileDoesNotExist),
        (path, start) => OpenFrom(package, path, start),
        path => path in package.files,
        path => Ok(Listing(package, path)))
    }
  }

  /**
   * The store's lookups: `is_file` and `path_valid` hold exactly for the
   * package's keys; `size` and `last_modified` give the record's fields for
   * a key and `FileDoesNotExist` for anything else; `open` from `s` gives the
   * file's bytes from `s` on (none when `s` is at or past the end); `/` is
   * always a directory.
   */
  lemma StoreLookups(store: EmbeddedFileSystem, path: string, s: u64)
    ensures store.AsFileSystem().isFile(path) <==> path in store.package.files
    ensures store.AsFileSystem().pathValid(path) <==> path in store.package.files
    ensures store.AsFileSystem().isDir("/")
    ensures path !in store.package.files ==>
      && store.AsFileSystem().size(path) == Err(FileDoesNotExist)
      && store.AsFileSystem().lastModified(path) == Err(FileDoesNotExist)
      && store.AsFileSystem().openAt(path, Some(s)) == Err(FileDoesNotExist)
    ensures path in store.package.files ==>
      && store.AsFileSystem().size(path) == Ok(store.package.files[path].len)
      && store.AsFileSystem().lastModified(path) == Ok(store.package.files[path].lastModified as int)
    ensures path in store.package.files && InBounds(store.package.files[path], |store.package.data|) ==>
      var f := store.package.files[path];
      var bytes := store.package.data[f.start..f.start + f.len];
      store.AsFileSystem().openAt(path, Some(s)) == Ok(if s <= f.len then bytes[s..] else [])
  {
  }

  /** `EmbeddedFileSystem::from_bytes`. */
  method LoadEmbedded(bytes: seq<byte>) returns (r: Result<EmbeddedFileSystem>)
    ensures Decode(bytes).Ok? <==> r.Ok?
    ensures r.Ok? ==> r.value.package == Decode(bytes).value
    ensures !r.Ok? ==> r == Decode(bytes).PropagateFailure()
  {
    var package := FromBytes(bytes);
    if !package.Ok? {
      return package.PropagateFailure();
    }
    r := Ok(EmbeddedFileSystem(package.value));
  }
}
