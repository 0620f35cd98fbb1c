/**
 * The package encoder `write_package` (src/fs/embedded.rs). The files it
 * reads are a snapshot of the directory tree under `root`: each path the
 * caller lists maps to the file's modification time (whole seconds), the
 * size its metadata reports and its bytes. The writer is an in-memory byte
 * sequence, so writing never fails.
 */
module PackageWriter {
  import opened Base
  import opened ByteOrder
  import Utf8
  import opened Text

  datatype DiskFile = DiskFile(modified: i64, size: u64, content: seq<byte>)

  /** A snapshot in which every file's metadata size is its length. */
  predicate Consistent(disk: map<string, DiskFile>)
  {
    forall f | f in disk :: disk[f].size == |disk[f].content|
  }

  /** The path as stored in the package: every `\` turned into `/`. */
  function Normalize(path: string): (r: string)
    ensures |r| == |path|
  {
    ReplaceChar(path, '\\', '/')
  }

  /** `f.as_bytes().len()`: the path's length in UTF-8 bytes. */
  function PathLen(path: string): nat
  {
    |Utf8.Encode(path)|
  }

  /** Normalizing swaps one ASCII character for another, so the byte length is kept. */
  lemma NormalizeKeepsPathLen(path: string)
    ensures PathLen(Normalize(path)) == PathLen(path)
  {
    Utf8.EncodeLengthOnAsciiSwap(path, Normalize(path));
  }

  /** Bytes one file adds to the metadata: four 8-byte numbers and the path. */
  function RecordLen(path: string): nat
  {
    32 + PathLen(path)
  }

  function MetaLen(files: seq<string>): nat
  {
    if files == [] then 0 else RecordLen(files[0]) + MetaLen(files[1..])
  }

  predicate AllOnDisk(disk: map<string, DiskFile>, files: seq<string>)
  {
    forall i | 0 <= i < |files| :: files[i] in disk
  }

  /**
   * The first loop of `write_package`, from the `meta_len` accumulated so
   * far: adds 32 and then the path length for each file (each addition
   * panics on overflow) and looks the file up (a missing file is an error).
   */
  function Survey(disk: map<string, DiskFile>, files: seq<string>, metaLen: u64): (r: Result<u64>)
    ensures r.Ok? ==> r.value == metaLen + MetaLen(files)
    ensures r.Ok? ==> AllOnDisk(disk, files)
  {
    if files == [] then Ok(metaLen)
    else if metaLen + 32 >= U64_LIMIT then Panic("attempt to add with overflow")
    else if metaLen + 32 + PathLen(files[0]) >= U64_LIMIT then Panic("attempt to add with overflow")
    else if files[0] !in disk then Err(Io)
    else
      var r := Survey(disk, files[1..], metaLen + 32 + PathLen(files[0]));
      assert r.Ok? ==> forall i | 1 <= i < |files| :: files[i] == files[1..][i - 1];
      r
  }

  /** A survey that succeeds saw every path fit in a `u64`; one that errs met a file missing from the disk. */
  lemma {:induction false} SurveySpec(disk: map<string, DiskFile>, files: seq<string>, metaLen: u64)
    ensures var r := Survey(disk, files, metaLen);
      && (r.Ok? ==> forall i | 0 <= i < |files| :: PathLen(files[i]) < U64_LIMIT)
      && (r.Err? ==> r.error == Io && exists i | 0 <= i < |files| :: files[i] !in disk)
    decreases |files|
  {
    if files != [] && metaLen + 32 + PathLen(files[0]) < U64_LIMIT && files[0] in disk {
      SurveySpec(disk, files[1..], metaLen + 32 + PathLen(files[0]));
      var r := Survey(disk, files, metaLen);
      if r.Ok? {
        forall i | 0 <= i < |files| ensures PathLen(files[i]) < U64_LIMIT {
          if i > 0 {
            assert files[i] == files[1..][i - 1];
          }
        }
      }
      if r.Err? {
        var k :| 0 <= k < |files[1..]| && files[1..][k] !in disk;
        assert files[k + 1] !in disk;
      }
    }
  }

  /** Every file but the last: the files already handled when the last one is reached. */
  function Init(files: seq<string>): seq<string>
    requires files != []
  {
    files[..|files| - 1]
  }

  lemma InitOnDisk(disk: map<string, DiskFile>, files: seq<string>)
    requires files != [] && AllOnDisk(disk, files)
    ensures AllOnDisk(disk, Init(files)) && files[|files| - 1] in disk
  {
    assert forall i | 0 <= i < |files| - 1 :: Init(files)[i] == files[i];
  }

  /** The sum of the files' sizes: the `data_offset` after them. */
  function TotalSize(disk: map<string, DiskFile>, files: seq<string>): nat
    requires AllOnDisk(disk, files)
  {
    if files == [] then 0
    else
      InitOnDisk(disk, files);
      TotalSize(disk, Init(files)) + disk[files[|files| - 1]].size
  }

  /** Every file's modification time is one chrono can represent. */
  predicate TimesRepresentable(disk: map<string, DiskFile>, files: seq<string>)
  {
    forall i | 0 <= i < |files| :: files[i] in disk && IsTimestamp(disk[files[i]].modified)
  }

  lemma TimesInit(disk: map<string, DiskFile>, files: seq<string>)
    requires files != []
    ensures TimesRepresentable(disk, files)
      <==> TimesRepresentable(disk, Init(files)) && files[|files| - 1] in disk && IsTimestamp(disk[files[|files| - 1]].modified)
  {
    assert forall i | 0 <= i < |files| - 1 :: Init(files)[i] == files[i];
  }

  /**
   * How the second loop of `write_package` ends: the `data_offset` after
   * all the records, or its first panic. For each file in turn,
   * `DateTime::from` panics on a time chrono cannot represent, and then
   * adding the file's size to the offset panics on overflow.
   */
  function DataOffset(disk: map<string, DiskFile>, files: seq<string>): (r: Result<u64>)
    requires AllOnDisk(disk, files)
    ensures r.Ok? || r.Panic?
  {
    if files == [] then Ok(0)
    else
      InitOnDisk(disk, files);
      var last := files[|files| - 1];
      var before := DataOffset(disk, Init(files));
      if !before.Ok? then before
      else if !IsTimestamp(disk[last].modified) then Panic(NO_SUCH_LOCAL_TIME)
      else if before.value + disk[last].size >= U64_LIMIT then Panic("attempt to add with overflow")
      else Ok(before.value + disk[last].size)
  }

  /**
   * The records loop completes exactly when every time is representable and
   * the sizes add up to less than 2^64, ending on their sum; otherwise it
   * panics on the time, or, when every time is representable, on the sum.
   */
  lemma {:induction false} DataOffsetSpec(disk: map<string, DiskFile>, files: seq<string>)
    requires AllOnDisk(disk, files)
    ensures var r := DataOffset(disk, files);
      && (r.Ok? <==> TimesRepresentable(disk, files) && TotalSize(disk, files) < U64_LIMIT)
      && (r.Ok? ==> r.value == TotalSize(disk, files))
      && (!TimesRepresentable(disk, files) && TotalSize(disk, files) < U64_LIMIT ==> r == Panic(NO_SUCH_LOCAL_TIME))
      && (TimesRepresentable(disk, files) && TotalSize(disk, files) >= U64_LIMIT ==> r == Panic("attempt to add with overflow"))
    decreases |files|
  {
    if files != [] {
      InitOnDisk(disk, files);
      TimesInit(disk, files);
      DataOffsetSpec(disk, Init(files));
    }
  }

  /** One more file: its time is checked, then its size added to the offset so far. */
  lemma DataOffsetNext(disk: map<string, DiskFile>, files: seq<string>, i: nat)
    requires AllOnDisk(disk, files) && i < |files|
    ensures AllOnDisk(disk, files[..i]) && AllOnDisk(disk, files[..i + 1])
    ensures DataOffset(disk, files[..i]).Ok? ==>
      DataOffset(disk, files[..i + 1])
      == if !IsTimestamp(disk[files[i]].modified) then Panic(NO_SUCH_LOCAL_TIME)
         else if DataOffset(disk, files[..i]).value + disk[files[i]].size >= U64_LIMIT then Panic("attempt to add with overflow")
         else Ok(DataOffset(disk, files[..i]).value + disk[files[i]].size)
  {
    assert forall j | 0 <= j <= i :: files[..i + 1][j] == files[j];
    assert Init(files[..i + 1]) == files[..i];
  }

  /**
   * Where the records loop goes at the `i`-th file, when every file before
   * it had a representable time and their sizes fit in a `u64`.
   */
  lemma DataOffsetAt(disk: map<string, DiskFile>, files: seq<string>, i: nat)
    requires AllOnDisk(disk, files) && i < |files|
    requires AllOnDisk(disk, files[..i]) && TimesRepresentable(disk, files[..i]) && TotalSize(disk, files[..i]) < U64_LIMIT
    ensures AllOnDisk(disk, files[..i + 1])
    ensures !IsTimestamp(disk[files[i]].modified) ==> DataOffset(disk, files) == Panic(NO_SUCH_LOCAL_TIME)
    ensures IsTimestamp(disk[files[i]].modified) && TotalSize(disk, files[..i]) + disk[files[i]].size >= U64_LIMIT
      ==> DataOffset(disk, files) == Panic("attempt to add with overflow")
    ensures IsTimestamp(disk[files[i]].modified) ==> TimesRepresentable(disk, files[..i + 1])
  {
    DataOffsetSpec(disk, files[..i]);
    DataOffsetNext(disk, files, i);
    DataOffsetFailure(disk, files, i + 1);
    assert Init(files[..i + 1]) == files[..i];
    TimesInit(disk, files[..i + 1]);
  }

  /** Once the loop has panicked on a prefix of the files, the panic is its outcome. */
  lemma {:induction false} DataOffsetFailure(disk: map<string, DiskFile>, files: seq<string>, k: nat)
    requires AllOnDisk(disk, files) && k <= |files|
    ensures AllOnDisk(disk, files[..k])
    ensures !DataOffset(disk, files[..k]).Ok? ==> DataOffset(disk, files) == DataOffset(disk, files[..k])
    decreases |files|
  {
    assert forall j | 0 <= j < k :: files[..k][j] == files[j];
    if k == |files| {
      assert files[..k] == files;
    } else {
      InitOnDisk(disk, files);
      assert Init(files)[..k] == files[..k];
      DataOffsetFailure(disk, Init(files), k);
    }
  }

  /**
   * One metadata record: path length, normalized path, time, size, offset.
   * `BeBytes(x, 8)` is `write_u64` of `x`; every value written is below 2^64.
   */
  function RecordBytes(path: string, modified: i64, size: u64, offset: nat): seq<byte>
  {
    BeBytes(PathLen(path), 8) + Utf8.Encode(Normalize(path)) + I64Be(modified) + U64Be(size) + BeBytes(offset, 8)
  }

  /** The metadata records, each file's offset the sum of the sizes before it. */
  function Records(disk: map<string, DiskFile>, files: seq<string>): seq<byte>
    requires AllOnDisk(disk, files)
  {
    if files == [] then []
    else
      InitOnDisk(disk, files);
      var last := files[|files| - 1];
      Records(disk, Init(files)) + RecordBytes(last, disk[last].modified, disk[last].size, TotalSize(disk, Init(files)))
  }

  /** The files' bytes, one after another. */
  function Contents(disk: map<string, DiskFile>, files: seq<string>): seq<byte>
    requires AllOnDisk(disk, files)
  {
    if files == [] then []
    else
      InitOnDisk(disk, files);
      Contents(disk, Init(files)) + disk[files[|files| - 1]].content
  }

  /**
   * The bytes `write_package` writes for `inputFiles`, or how it fails: the
   * paths are sorted, surveyed, and then the records and the contents are
   * written. Writing the records panics on the first time chrono cannot
   * represent, or once the sizes add up to 2^64.
   */
  function Encode(disk: map<string, DiskFile>, inputFiles: seq<string>): Result<seq<byte>>
  {
    var files := SortBy(inputFiles, Identity);
    var survey := Survey(disk, files, 0);
    if !survey.Ok? then survey.PropagateFailure()
    else
      var offset := DataOffset(disk, files);
      if !offset.Ok? then offset.PropagateFailure()
      else Ok(U64Be(survey.value) + Records(disk, files) + Contents(disk, files))
  }

  /**
   * A listed file whose time chrono cannot represent makes `write_package`
   * panic once the survey has passed and the sizes fit in a `u64`.
   */
  lemma EncodeUnrepresentableTime(disk: map<string, DiskFile>, inputFiles: seq<string>, f: string)
    requires Survey(disk, SortBy(inputFiles, Identity), 0).Ok?
    requires TotalSize(disk, SortBy(inputFiles, Identity)) < U64_LIMIT
    requires f in inputFiles && f in disk && !IsTimestamp(disk[f].modified)
    ensures Encode(disk, inputFiles) == Panic(NO_SUCH_LOCAL_TIME)
  {
    var files := SortBy(inputFiles, Identity);
    SortByMembers(inputFiles, Identity, f);
    DataOffsetSpec(disk, files);
  }

  /** The size total of a prefix is at most the total. */
  lemma {:induction false} TotalSizePrefix(disk: map<string, DiskFile>, files: seq<string>, i: nat)
    requires AllOnDisk(disk, files) && i <= |files|
    ensures AllOnDisk(disk, files[..i])
    ensures TotalSize(disk, files[..i]) <= TotalSize(disk, files)
  {
    assert forall j | 0 <= j < i :: files[..i][j] == files[j];
    if i < |files| {
      InitOnDisk(disk, files);
      assert Init(files)[..i] == files[..i];
      TotalSizePrefix(disk, Init(files), i);
    } else {
      assert files[..i] == files;
    }
  }

  /** Taking one more file adds its record, at the offset after the files before it, and its bytes. */
  lemma OneMore(disk: map<string, DiskFile>, files: seq<string>, i: nat)
    requires AllOnDisk(disk, files) && i < |files|
    ensures AllOnDisk(disk, files[..i]) && AllOnDisk(disk, files[..i + 1])
    ensures Init(files[..i + 1]) == files[..i]
    ensures TotalSize(disk, files[..i + 1]) == TotalSize(disk, files[..i]) + disk[files[i]].size
    ensures Records(disk, files[..i + 1])
      == Records(disk, files[..i]) + RecordBytes(files[i], disk[files[i]].modified, disk[files[i]].size, TotalSize(disk, files[..i]))
    ensures Contents(disk, files[..i + 1]) == Contents(disk, files[..i]) + disk[files[i]].content
  {
    TotalSizePrefix(disk, files, i + 1);
    assert Init(files[..i + 1]) == files[..i];
    InitOnDisk(disk, files[..i + 1]);
  }

  // ----- the imperative writer -----

  /** What the first loop of `write_package` gathers. */
  datatype Metadata = Metadata(metaLen: u64, fileSizes: seq<u64>, fileModificationTimes: seq<i64>)

  /** The sizes and times recorded for `files`, in order. */
  predicate Gathered(disk: map<string, DiskFile>, files: seq<string>, m: Metadata)
  {
    && |m.fileSizes| == |m.fileModificationTimes| == |files|
    && (forall j | 0 <= j < |files| :: files[j] in disk && m.fileSizes[j] == disk[files[j]].size)
    && (forall j | 0 <= j < |files| :: files[j] in disk && m.fileModificationTimes[j] == disk[files[j]].modified)
  }

  /** The survey of the files from the `i`-th on, one file at a time. */
  lemma SurveyFrom(disk: map<string, DiskFile>, files: seq<string>, i: nat, metaLen: u64)
    requires i < |files|
    ensures Survey(disk, files[i..], metaLen)
      == if metaLen + 32 >= U64_LIMIT then Panic("attempt to add with overflow")
         else if metaLen + 32 + PathLen(files[i]) >= U64_LIMIT then Panic("attempt to add with overflow")
         else if files[i] !in disk then Err(Io)
         else Survey(disk, files[i + 1..], metaLen + 32 + PathLen(files[i]))
  {
    assert files[i..][0] == files[i] && files[i..][1..] == files[i + 1..];
  }

  /** The first loop: adds up `meta_len` and looks up each file's metadata. */
  method GatherMetadata(disk: map<string, DiskFile>, files: seq<string>) returns (r: Result<Metadata>)
    ensures r.Ok? <==> Survey(disk, files, 0).Ok?
    ensures r.Ok? ==> r.value.metaLen == Survey(disk, files, 0).value && Gathered(disk, files, r.value)
    ensures !r.Ok? ==> r == Survey(disk, files, 0).PropagateFailure()
  {
    var fileSizes: seq<u64> := [];
    var fileModificationTimes: seq<i64> := [];
    var metaLen: u64 := 0;
    for i := 0 to |files|
      invariant Survey(disk, files, 0) == Survey(disk, files[i..], metaLen)
      invariant |fileSizes| == |fileModificationTimes| == i
      invariant forall j | 0 <= j < i :: files[j] in disk && fileSizes[j] == disk[files[j]].size
      invariant forall j | 0 <= j < i :: files[j] in disk && fileModificationTimes[j] == disk[files[j]].modified
    {
      SurveyFrom(disk, files, i, metaLen);
      if metaLen + 32 >= U64_LIMIT {
        return Panic("attempt to add with overflow");
      }
      metaLen := metaLen + 32;
      var pathLen := PathLen(files[i]);
      if metaLen + pathLen >= U64_LIMIT {
        return Panic("attempt to add with overflow");
      }
      metaLen := metaLen + pathLen;
      if files[i] !in disk {
        return Err(Io);
      }
      fileSizes := fileSizes + [disk[files[i]].size];
      fileModificationTimes := fileModificationTimes + [disk[files[i]].modified];
    }
    assert files[|files|..] == [];
    r := Ok(Metadata(metaLen, fileSizes, fileModificationTimes));
  }

  /**
   * The second loop: appends one record per file to `out`. The time is
   * converted to a `DateTime<Utc>` before it is written, which panics when
   * chrono cannot represent it, and the running `data_offset` panics on
   * overflow after the record is written.
   */
  method WriteRecords(disk: map<string, DiskFile>, files: seq<string>, m: Metadata, out: seq<byte>)
    returns (r: Result<seq<byte>>)
    requires Gathered(disk, files, m)
    requires forall j | 0 <= j < |files| :: PathLen(files[j]) < U64_LIMIT
    ensures AllOnDisk(disk, files)
    ensures r == if DataOffset(disk, files).Ok? then Ok(out + Records(disk, files))
                 else DataOffset(disk, files).PropagateFailure()
  {
    var written := out;
    var dataOffset: u64 := 0;
    for i := 0 to |files|
      invariant AllOnDisk(disk, files[..i])
      invariant dataOffset == TotalSize(disk, files[..i])
      invariant TimesRepresentable(disk, files[..i])
      invariant written == out + Records(disk, files[..i])
    {
      OneMore(disk, files, i);
      DataOffsetAt(disk, files, i);
      var lastModified := m.fileModificationTimes[i];
      if !IsTimestamp(lastModified) {
        return Panic(NO_SUCH_LOCAL_TIME);
      }
      var record := RecordBytes(files[i], lastModified, m.fileSizes[i], dataOffset);
      AppendAssoc(out, Records(disk, files[..i]), record);
      written := written + record;
      if dataOffset + m.fileSizes[i] >= U64_LIMIT {
        return Panic("attempt to add with overflow");
      }
      dataOffset := dataOffset + m.fileSizes[i];
    }
    assert files[..|files|] == files;
    DataOffsetSpec(disk, files);
    r := Ok(written);
  }

  /** The third loop: appends each file's bytes to `out`. */
  method WriteContents(disk: map<string, DiskFile>, files: seq<string>, out: seq<byte>) returns (written: seq<byte>)
    requires AllOnDisk(disk, files)
    ensures written == out + Contents(disk, files)
  {
    written := out;
    for i := 0 to |files|
      invariant AllOnDisk(disk, files[..i])
      invariant written == out + Contents(disk, files[..i])
    {
      OneMore(disk, files, i);
      AppendAssoc(out, Contents(disk, files[..i]), disk[files[i]].content);
      written := written + disk[files[i]].content;
    }
    assert files[..|files|] == files;
  }

  /**
   * `write_package`: sorts the paths, gathers each file's size and time
   * while adding up `meta_len`, writes `meta_len` and one record per file
   * with a running `data_offset`, then copies the files' bytes.
   */
  method WritePackage(disk: map<string, DiskFile>, inputFiles: seq<string>) returns (r: Result<seq<byte>>)
    ensures r == Encode(disk, inputFiles)
  {
    var files := SortBy(inputFiles, Identity);
    var metadata := GatherMetadata(disk, files);
    if !metadata.Ok? {
      PropagateTwice<u64, Metadata, seq<byte>>(Survey(disk, files, 0));
      return metadata.PropagateFailure();
    }
    var m := metadata.value;
    SurveySpec(disk, files, 0);
    var records := WriteRecords(disk, files, m, U64Be(m.metaLen));
    if !records.Ok? {
      return records;
    }
    var written := WriteContents(disk, files, records.value);
    r := Ok(written);
  }
}
