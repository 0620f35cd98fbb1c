/**
 * Where each written file ends up in a package `write_package` produced
 * (src/fs/embedded.rs): the index holds one entry per normalized path, the
 * last record with that path winning; the offsets tile the data; and
 * `open` on a written path gives the file's bytes back.
 */
module PackageLayout {
  import opened Base
  import opened Text
  import opened Embedded
  import opened PackageWriter
  import opened PackageRoundTrip

  /** The running `data_offset` when the `i`-th file's record is written. */
  function Offset(disk: map<string, DiskFile>, files: seq<string>, i: nat): nat
    requires AllOnDisk(disk, files) && i <= |files|
  {
    TotalSizePrefix(disk, files, i);
    TotalSize(disk, files[..i])
  }

  /** The index entry the `i`-th file's record carries. */
  function EntryOf(disk: map<string, DiskFile>, files: seq<string>, i: nat): InternalFile
    requires AllOnDisk(disk, files) && TotalSize(disk, files) < U64_LIMIT && i < |files|
  {
    TotalSizePrefix(disk, files, i);
    InternalFile(disk[files[i]].modified, disk[files[i]].size, Offset(disk, files, i))
  }

  // ----- the index -----

  /** Inserting one more record after the others. */
  lemma {:induction false} InsertAppend(index: map<string, InternalFile>, ws: seq<Written>, w: Written)
    ensures InsertRecords(index, ws + [w]) == InsertRecords(index, ws)[Normalize(w.path) := InternalFile(w.modified, w.size, w.offset)]
    decreases |ws|
  {
    if ws == [] {
      assert ws + [w] == [w];
    } else {
      assert (ws + [w])[1..] == ws[1..] + [w];
      InsertAppend(index[Normalize(ws[0].path) := InternalFile(ws[0].modified, ws[0].size, ws[0].offset)], ws[1..], w);
    }
  }

  /** The index of `files` is that of all but the last, with the last file's entry put in. */
  lemma IndexInit(disk: map<string, DiskFile>, files: seq<string>)
    requires files != [] && AllOnDisk(disk, files) && TotalSize(disk, files) < U64_LIMIT
    ensures AllOnDisk(disk, Init(files)) && TotalSize(disk, Init(files)) < U64_LIMIT
    ensures Index(disk, files)
      == Index(disk, Init(files))[Normalize(files[|files| - 1]) := EntryOf(disk, files, |files| - 1)]
  {
    InitOnDisk(disk, files);
    var last := files[|files| - 1];
    assert files[..|files| - 1] == Init(files);
    InsertAppend(map[], WrittenRecords(disk, Init(files)),
      Written(last, disk[last].modified, disk[last].size, TotalSize(disk, Init(files))));
  }

  /** A path is in the index exactly when some written file normalizes to it. */
  lemma {:induction false} IndexKeys(disk: map<string, DiskFile>, files: seq<string>, k: string)
    requires AllOnDisk(disk, files) && TotalSize(disk, files) < U64_LIMIT
    ensures k in Index(disk, files) <==> exists i | 0 <= i < |files| :: Normalize(files[i]) == k
  {
    if files != [] {
      IndexInit(disk, files);
      IndexKeys(disk, Init(files), k);
      if exists i | 0 <= i < |files| - 1 :: Normalize(Init(files)[i]) == k {
        var i :| 0 <= i < |files| - 1 && Normalize(Init(files)[i]) == k;
        assert files[i] == Init(files)[i];
      }
      if exists i | 0 <= i < |files| :: Normalize(files[i]) == k {
        var i :| 0 <= i < |files| && Normalize(files[i]) == k;
        if i < |files| - 1 {
          assert files[i] == Init(files)[i];
        }
      }
    }
  }

  /** The entry of a path is that of the last written file that normalizes to it: a later record replaces an earlier one. */
  lemma {:induction false} IndexLast(disk: map<string, DiskFile>, files: seq<string>, i: nat)
    requires AllOnDisk(disk, files) && TotalSize(disk, files) < U64_LIMIT
    requires i < |files| && forall j | i < j < |files| :: Normalize(files[j]) != Normalize(files[i])
    ensures Normalize(files[i]) in Index(disk, files)
    ensures Index(disk, files)[Normalize(files[i])] == EntryOf(disk, files, i)
  {
    IndexInit(disk, files);
    if i < |files| - 1 {
      assert Init(files)[i] == files[i];
      assert forall j | i < j < |files| - 1 :: Init(files)[j] == files[j];
      IndexLast(disk, Init(files), i);
      assert Init(files)[..i] == files[..i];
    }
  }

  /** From a file that normalizes to `k`, the last file that does. */
  lemma LastWith(files: seq<string>, k: string, i0: nat) returns (i: nat)
    requires i0 < |files| && Normalize(files[i0]) == k
    ensures i0 <= i < |files| && Normalize(files[i]) == k
    ensures forall j | i < j < |files| :: Normalize(files[j]) != k
    decreases |files| - i0
  {
    if j :| i0 < j < |files| && Normalize(files[j]) == k {
      i := LastWith(files, k, j);
    } else {
      i := i0;
    }
  }

  // ----- the data -----

  /** With sizes that match the contents, the data is as long as the sizes add up to. */
  lemma {:induction false} ContentsLength(disk: map<string, DiskFile>, files: seq<string>)
    requires Consistent(disk) && AllOnDisk(disk, files)
    ensures |Contents(disk, files)| == TotalSize(disk, files)
  {
    if files != [] {
      InitOnDisk(disk, files);
      ContentsLength(disk, Init(files));
    }
  }

  /** The contents of a prefix of the files are a prefix of the contents. */
  lemma {:induction false} ContentsPrefix(disk: map<string, DiskFile>, files: seq<string>, i: nat)
    requires AllOnDisk(disk, files) && i <= |files|
    ensures AllOnDisk(disk, files[..i])
    ensures |Contents(disk, files[..i])| <= |Contents(disk, files)|
    ensures Contents(disk, files[..i]) == Contents(disk, files)[..|Contents(disk, files[..i])|]
    decreases |files|
  {
    TotalSizePrefix(disk, files, i);
    if i < |files| {
      InitOnDisk(disk, files);
      assert Init(files)[..i] == files[..i];
      ContentsPrefix(disk, Init(files), i);
    } else {
      assert files[..i] == files;
    }
  }

  /**
   * The offsets tile the data: the first is 0, each file's bytes sit
   * between its offset and the next one, and the last offset is the
   * length of the data.
   */
  lemma OffsetsTile(disk: map<string, DiskFile>, files: seq<string>, i: nat)
    requires Consistent(disk) && AllOnDisk(disk, files) && i < |files|
    ensures Offset(disk, files, 0) == 0
    ensures Offset(disk, files, |files|) == TotalSize(disk, files) == |Contents(disk, files)|
    ensures Offset(disk, files, i + 1) == Offset(disk, files, i) + disk[files[i]].size
    ensures Offset(disk, files, i + 1) <= |Contents(disk, files)|
    ensures Contents(disk, files)[Offset(disk, files, i)..Offset(disk, files, i + 1)] == disk[files[i]].content
  {
    assert files[..0] == [] && files[..|files|] == files;
    ContentsLength(disk, files);
    OneMore(disk, files, i);
    ContentsLength(disk, files[..i]);
    ContentsLength(disk, files[..i + 1]);
    ContentsPrefix(disk, files, i + 1);
  }

  // ----- reading a file back -----

  /** `open` on the path of the `i`-th file, when no later file shares it, gives that file's bytes. */
  lemma OpenWritten(disk: map<string, DiskFile>, files: seq<string>, i: nat)
    requires Consistent(disk) && AllOnDisk(disk, files) && TotalSize(disk, files) < U64_LIMIT
    requires i < |files| && forall j | i < j < |files| :: Normalize(files[j]) != Normalize(files[i])
    ensures Normalize(files[i]) in Index(disk, files)
    ensures Index(disk, files)[Normalize(files[i])] == EntryOf(disk, files, i)
    ensures Open(Package(Index(disk, files), Contents(disk, files)), Normalize(files[i])) == Ok(disk[files[i]].content)
  {
    IndexLast(disk, files, i);
    OffsetsTile(disk, files, i);
    OpenInside(Package(Index(disk, files), Contents(disk, files)), Normalize(files[i]),
      Offset(disk, files, i), Offset(disk, files, i + 1), disk[files[i]].content);
  }

  /** `open` on an entry lying between `lo` and `hi` inside the data, below 2^64, gives the bytes there. */
  lemma OpenInside(p: Package, path: string, lo: nat, hi: nat, bytes: seq<byte>)
    requires path in p.files && p.files[path].start == lo && lo + p.files[path].len == hi
    requires hi <= |p.data| && hi < U64_LIMIT && p.data[lo..hi] == bytes
    ensures Open(p, path) == Ok(bytes)
  {
  }

  // ----- what write_package produced -----

  /** The sorted order `write_package` writes the files in. */
  function Sorted(inputFiles: seq<string>): seq<string>
  {
    SortBy(inputFiles, Identity)
  }

  /**
   * Decodable: the whole metadata length of the sorted files stays below
   * 2^63, which is more than each path length surviving the decoder's
   * `i64` seek needs.
   */
  predicate Decodable(inputFiles: seq<string>)
  {
    MetaLen(Sorted(inputFiles)) < I64_LIMIT
  }

  /** What `write_package` writes, when it succeeds, is the package bytes of the sorted files. */
  lemma EncodeIsBlob(disk: map<string, DiskFile>, inputFiles: seq<string>)
    requires Encode(disk, inputFiles).Ok? && Decodable(inputFiles)
    ensures Packable(disk, Sorted(inputFiles))
    ensures Encode(disk, inputFiles).value == Blob(disk, Sorted(inputFiles))
  {
    DataOffsetSpec(disk, Sorted(inputFiles));
  }

  /**
   * The round trip: decoding what `write_package` wrote gives the index of
   * the sorted files' records and their bytes as the data; the index holds
   * exactly the normalized input paths.
   */
  lemma EncodeDecode(disk: map<string, DiskFile>, inputFiles: seq<string>)
    requires Encode(disk, inputFiles).Ok? && Decodable(inputFiles)
    ensures Packable(disk, Sorted(inputFiles))
    ensures Decode(Encode(disk, inputFiles).value)
      == Ok(Package(Index(disk, Sorted(inputFiles)), Contents(disk, Sorted(inputFiles))))
    ensures forall k :: k in Index(disk, Sorted(inputFiles)) <==> exists f | f in inputFiles :: Normalize(f) == k
  {
    EncodeIsBlob(disk, inputFiles);
    DecodeBlob(disk, Sorted(inputFiles));
    SortedIndexKeys(disk, inputFiles);
  }

  /** The index of the sorted files holds exactly the normalized input paths. */
  lemma SortedIndexKeys(disk: map<string, DiskFile>, inputFiles: seq<string>)
    requires AllOnDisk(disk, Sorted(inputFiles)) && TotalSize(disk, Sorted(inputFiles)) < U64_LIMIT
    ensures forall k :: k in Index(disk, Sorted(inputFiles)) <==> exists f | f in inputFiles :: Normalize(f) == k
  {
    var files := Sorted(inputFiles);
    forall k ensures k in Index(disk, files) <==> exists f | f in inputFiles :: Normalize(f) == k {
      IndexKeys(disk, files, k);
      if k in Index(disk, files) {
        var i :| 0 <= i < |files| && Normalize(files[i]) == k;
        SortByMembers(inputFiles, Identity, files[i]);
      }
      if exists f | f in inputFiles :: Normalize(f) == k {
        var f :| f in inputFiles && Normalize(f) == k;
        SortByMembers(inputFiles, Identity, f);
        var i :| 0 <= i < |files| && files[i] == f;
      }
    }
  }

  /**
   * For a written path that no other input path normalizes onto, the
   * decoded package knows the file's length and time, and `open` gives
   * back exactly its bytes.
   */
  lemma WrittenFileOpens(disk: map<string, DiskFile>, inputFiles: seq<string>, f: string)
    requires Consistent(disk)
    requires Encode(disk, inputFiles).Ok? && Decodable(inputFiles)
    requires f in inputFiles && forall g | g in inputFiles && Normalize(g) == Normalize(f) :: g == f
    ensures f in disk && Decode(Encode(disk, inputFiles).value).Ok?
    ensures var p := Decode(Encode(disk, inputFiles).value).value;
      && Normalize(f) in p.files
      && p.files[Normalize(f)].len == |disk[f].content|
      && p.files[Normalize(f)].lastModified == disk[f].modified
      && Open(p, Normalize(f)) == Ok(disk[f].content)
  {
    var files := Sorted(inputFiles);
    EncodeDecode(disk, inputFiles);
    SortByMembers(inputFiles, Identity, f);
    var i0 :| 0 <= i0 < |files| && files[i0] == f;
    var i := LastWith(files, Normalize(f), i0);
    SortByMembers(inputFiles, Identity, files[i]);
    assert files[i] == f;
    OpenWritten(disk, files, i);
  }
}
