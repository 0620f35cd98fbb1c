/**
 * What `Package::from_bytes` makes of the bytes `write_package` writes
 * (src/fs/embedded.rs): one index entry per written path carrying the
 * file's time and length, the data exactly the files' bytes, and `open`
 * giving each file's bytes back.
 */
module PackageRoundTrip {
  import opened Base
  import opened ByteOrder
  import Utf8
  import opened Text
  import opened Embedded
  import opened PackageWriter

  /**
   * The files can be written and read back: the whole metadata length
   * stays below 2^63, which is more than each `path_len` surviving the
   * `i64` seek needs, the sizes sum below 2^64, and every time is one
   * chrono can represent.
   */
  predicate Packable(disk: map<string, DiskFile>, files: seq<string>)
  {
    && AllOnDisk(disk, files)
    && MetaLen(files) < I64_LIMIT
    && TotalSize(disk, files) < U64_LIMIT
    && TimesRepresentable(disk, files)
  }

  /** The package bytes for `files` taken in the given order. */
  function Blob(disk: map<string, DiskFile>, files: seq<string>): seq<byte>
    requires Packable(disk, files)
  {
    U64Be(MetaLen(files)) + Records(disk, files) + Contents(disk, files)
  }

  /** One metadata record as `write_package` writes it: the path before normalizing, and its numbers. */
  datatype Written = Written(path: string, modified: i64, size: u64, offset: u64)

  /** The records of `files`, each file's offset the sum of the sizes before it. */
  function WrittenRecords(disk: map<string, DiskFile>, files: seq<string>): (ws: seq<Written>)
    requires AllOnDisk(disk, files) && TotalSize(disk, files) < U64_LIMIT
    ensures |ws| == |files|
  {
    if files == [] then []
    else
      InitOnDisk(disk, files);
      var last := files[|files| - 1];
      WrittenRecords(disk, Init(files)) + [Written(last, disk[last].modified, disk[last].size, TotalSize(disk, Init(files)))]
  }

  /** The records one after another. */
  function Serialize(ws: seq<Written>): seq<byte>
  {
    if ws == [] then [] else RecordBytes(ws[0].path, ws[0].modified, ws[0].size, ws[0].offset) + Serialize(ws[1..])
  }

  /** What the decoding loop makes of the records: each inserts its normalized path, a later one replacing an earlier. */
  function InsertRecords(index: map<string, InternalFile>, ws: seq<Written>): map<string, InternalFile>
    decreases |ws|
  {
    if ws == [] then index
    else InsertRecords(index[Normalize(ws[0].path) := InternalFile(ws[0].modified, ws[0].size, ws[0].offset)], ws[1..])
  }

  /** The path index a package written from `files` holds. */
  function Index(disk: map<string, DiskFile>, files: seq<string>): map<string, InternalFile>
    requires AllOnDisk(disk, files) && TotalSize(disk, files) < U64_LIMIT
  {
    InsertRecords(map[], WrittenRecords(disk, files))
  }

  /** Every record's path length survives the decoder's `i64` seek, and its time `Utc.timestamp`. */
  predicate Fits(ws: seq<Written>)
  {
    forall i | 0 <= i < |ws| :: PathLen(ws[i].path) < I64_LIMIT && IsTimestamp(ws[i].modified)
  }

  // ----- one record -----

  lemma RecordBytesLength(path: string, modified: i64, size: u64, offset: nat)
    ensures |RecordBytes(path, modified, size, offset)| == RecordLen(path)
  {
    NormalizeKeepsPathLen(path);
  }

  /** Where the parts of a record sit: a length, a variable-length part and three 8-byte numbers. */
  lemma {:induction false} FiveParts(a: seq<byte>, e: seq<byte>, t: seq<byte>, z: seq<byte>, o: seq<byte>)
    requires |a| == 8 && |t| == 8 && |z| == 8 && |o| == 8
    ensures var r := a + e + t + z + o; var l := |e|;
      && |r| == 32 + l
      && U64At(r, 0) == U64At(a, 0)
      && r[8..8 + l] == e
      && U64At(r, 8 + l) == U64At(t, 0)
      && U64At(r, 16 + l) == U64At(z, 0)
      && U64At(r, 24 + l) == U64At(o, 0)
  {
    var l := |e|;
    assert U64At(a + e + t + z + o, 0) == U64At(a, 0) by {
      U64AtAppendLeft(a + e + t + z, o, 0);
      U64AtAppendLeft(a + e + t, z, 0);
      U64AtAppendLeft(a + e, t, 0);
      U64AtAppendLeft(a, e, 0);
    }
    assert (a + e + t + z + o)[8..8 + l] == e by {
      forall i | 0 <= i < l ensures (a + e + t + z + o)[8 + i] == e[i] {
        assert (a + e)[8 + i] == e[i];
      }
    }
    assert U64At(a + e + t + z + o, 8 + l) == U64At(t, 0) by {
      U64AtAppendLeft(a + e + t + z, o, 8 + l);
      U64AtAppendLeft(a + e + t, z, 8 + l);
      U64AtAppendRight(a + e, t, 0);
    }
    assert U64At(a + e + t + z + o, 16 + l) == U64At(z, 0) by {
      U64AtAppendLeft(a + e + t + z, o, 16 + l);
      U64AtAppendRight(a + e + t, z, 0);
    }
    U64AtAppendRight(a + e + t + z, o, 0);
  }

  /**
   * The fields of one record, each read where the decoder looks for it: the
   * path length first, then the path's bytes, the time, the size and the
   * offset.
   */
  lemma RecordValues(path: string, modified: i64, size: u64, offset: u64)
    requires PathLen(path) < U64_LIMIT
    ensures var r := RecordBytes(path, modified, size, offset); var l := PathLen(path);
      && |r| == 32 + l
      && U64At(r, 0) == l
      && r[8..8 + l] == Utf8.Encode(Normalize(path))
      && AsI64(U64At(r, 8 + l)) == modified
      && U64At(r, 16 + l) == size
      && U64At(r, 24 + l) == offset
  {
    NormalizeKeepsPathLen(path);
    FiveParts(U64Be(PathLen(path)), Utf8.Encode(Normalize(path)), I64Be(modified), U64Be(size), U64Be(offset));
    U64RoundTrip(PathLen(path));
    I64RoundTrip(modified);
    U64RoundTrip(size);
    U64RoundTrip(offset);
  }

  /** `take(n)` inside an occurrence of `s` yields the bytes of `s` there. */
  lemma {:induction false} TakeAtShift(b: seq<byte>, pos: nat, s: seq<byte>, k: nat, n: nat)
    requires BytesAt(b, pos, s) && k + n <= |s|
    ensures TakeAt(b, pos + k, n) == s[k..k + n]
    decreases n
  {
    if n > 0 {
      TakeAtShift(b, pos, s, k + 1, n - 1);
      assert b[pos + k] == s[k];
      assert s[k..k + n] == [s[k]] + s[k + 1..k + n];
    }
  }

  /** Skipping a path of `l` bytes lands just past it. */
  lemma SeekPastPath(pos: nat, l: nat)
    requires l < I64_LIMIT && pos + 8 + l < U64_LIMIT
    ensures SeekTarget(pos + 8, AsI64(l)) == Some(pos + 8 + l)
  {
  }

  /** One pass of the decoding loop, once each of its reads is known to succeed. */
  lemma ReadRecordWhen(b: seq<byte>, pos: nat, l: u64, path: string, modified: i64, size: u64, offset: u64)
    requires ReadU64At(b, pos) == Some(l)
    requires Utf8.Decode(TakeAt(b, pos + 8, l)) == Some(path)
    requires SeekTarget(pos + 8, AsI64(l)) == Some(pos + 8 + l)
    requires pos + 32 + l <= |b|
    requires AsI64(U64At(b, pos + 8 + l)) == modified && IsTimestamp(modified)
    requires U64At(b, pos + 16 + l) == size && U64At(b, pos + 24 + l) == offset
    ensures ReadRecord(b, pos) == Ok(RecordRead(path, InternalFile(modified, size, offset), pos + 32 + l))
  {
  }

  /** A pass of the decoding loop over bytes `r` at `pos` whose fields hold the values read. */
  lemma ReadRecordFrom(b: seq<byte>, pos: nat, r: seq<byte>, l: nat, path: string, modified: i64, size: u64, offset: u64)
    requires l < I64_LIMIT && pos + 32 + l < U64_LIMIT
    requires BytesAt(b, pos, r) && |r| == 32 + l
    requires U64At(r, 0) == l && Utf8.Decode(r[8..8 + l]) == Some(path) && IsTimestamp(modified)
    requires AsI64(U64At(r, 8 + l)) == modified && U64At(r, 16 + l) == size && U64At(r, 24 + l) == offset
    ensures ReadRecord(b, pos) == Ok(RecordRead(path, InternalFile(modified, size, offset), pos + 32 + l))
  {
    assert ReadU64At(b, pos) == Some(l) by {
      U64AtShift(b, pos, r, 0);
    }
    assert Utf8.Decode(TakeAt(b, pos + 8, l)) == Some(path) by {
      TakeAtShift(b, pos, r, 8, l);
    }
    assert AsI64(U64At(b, pos + 8 + l)) == modified by {
      U64AtShift(b, pos, r, 8 + l);
    }
    assert U64At(b, pos + 16 + l) == size by {
      U64AtShift(b, pos, r, 16 + l);
    }
    assert U64At(b, pos + 24 + l) == offset by {
      U64AtShift(b, pos, r, 24 + l);
    }
    SeekPastPath(pos, l);
    ReadRecordWhen(b, pos, l, path, modified, size, offset);
  }

  /**
   * A record that `write_package` wrote at `pos` reads back as the
   * normalized path, the time, the length and the offset written, and the
   * cursor ends just after it.
   */
  lemma ReadRecordOf(b: seq<byte>, pos: nat, path: string, modified: i64, size: u64, offset: u64)
    requires PathLen(path) < I64_LIMIT && pos + RecordLen(path) < U64_LIMIT && IsTimestamp(modified)
    requires BytesAt(b, pos, RecordBytes(path, modified, size, offset))
    ensures ReadRecord(b, pos)
      == Ok(RecordRead(Normalize(path), InternalFile(modified, size, offset), pos + RecordLen(path)))
  {
    RecordValues(path, modified, size, offset);
    Utf8.DecodeEncode(Normalize(path));
    ReadRecordFrom(b, pos, RecordBytes(path, modified, size, offset), PathLen(path), Normalize(path), modified, size, offset);
  }

  /** A pass over a record that reads successfully and moves the cursor `len` bytes forward. */
  lemma LoopPassOver(b: seq<byte>, metaLen: u64, pos: nat, read: u64, index: map<string, InternalFile>,
                     path: string, file: InternalFile, len: nat)
    requires read < metaLen && 0 < len && read + len < U64_LIMIT
    requires ReadRecord(b, pos) == Ok(RecordRead(path, file, pos + len))
    ensures DecodeLoop(b, metaLen, pos, read, index) == DecodeLoop(b, metaLen, pos + len, read + len, index[path := file])
  {
  }

  /** The metadata bytes the records take. */
  function Span(ws: seq<Written>): nat
  {
    if ws == [] then 0 else RecordLen(ws[0].path) + Span(ws[1..])
  }

  /** Reading records from `pos` on gives back `ws` one after another. */
  predicate Reads(b: seq<byte>, pos: nat, ws: seq<Written>)
    decreases |ws|
  {
    || ws == []
    || (&& ReadRecord(b, pos)
             == Ok(RecordRead(Normalize(ws[0].path), InternalFile(ws[0].modified, ws[0].size, ws[0].offset), pos + RecordLen(ws[0].path)))
        && Reads(b, pos + RecordLen(ws[0].path), ws[1..]))
  }

  /**
   * The decoding loop over records that read back one after another and
   * fill the rest of the metadata: it stops with `read == meta_len` exactly,
   * and holds every record inserted.
   */
  lemma {:induction false} DecodeWritten(b: seq<byte>, metaLen: u64, pos: nat, read: u64, index: map<string, InternalFile>, ws: seq<Written>)
    requires metaLen < U64_LIMIT && read + Span(ws) == metaLen
    requires Reads(b, pos, ws)
    ensures DecodeLoop(b, metaLen, pos, read, index) == Ok(InsertRecords(index, ws))
    decreases |ws|
  {
    if ws == [] {
      assert DecodeLoop(b, metaLen, pos, read, index) == Ok(index);
    } else {
      var l := RecordLen(ws[0].path);
      var file := InternalFile(ws[0].modified, ws[0].size, ws[0].offset);
      LoopPassOver(b, metaLen, pos, read, index, Normalize(ws[0].path), file, l);
      DecodeWritten(b, metaLen, pos + l, read + l, index[Normalize(ws[0].path) := file], ws[1..]);
    }
  }

  /** The records occur one after another from `pos` on. */
  predicate Laid(b: seq<byte>, pos: nat, ws: seq<Written>)
    decreases |ws|
  {
    || ws == []
    || (&& BytesAt(b, pos, RecordBytes(ws[0].path, ws[0].modified, ws[0].size, ws[0].offset))
        && Laid(b, pos + RecordLen(ws[0].path), ws[1..]))
  }

  /** Records serialized one after another are laid out from where they start. */
  lemma {:induction false} SerializedLaid(b: seq<byte>, pos: nat, ws: seq<Written>)
    requires BytesAt(b, pos, Serialize(ws))
    ensures Laid(b, pos, ws) && |Serialize(ws)| == Span(ws)
    decreases |ws|
  {
    if ws != [] {
      BytesAtAppend(b, pos, RecordBytes(ws[0].path, ws[0].modified, ws[0].size, ws[0].offset), Serialize(ws[1..]));
      RecordBytesLength(ws[0].path, ws[0].modified, ws[0].size, ws[0].offset);
      SerializedLaid(b, pos + RecordLen(ws[0].path), ws[1..]);
    }
  }

  /** Records laid out one after another read back from where they start. */
  lemma {:induction false} LaidReads(b: seq<byte>, pos: nat, ws: seq<Written>)
    requires Laid(b, pos, ws) && Fits(ws) && pos + Span(ws) < U64_LIMIT
    ensures Reads(b, pos, ws)
    decreases |ws|
  {
    if ws != [] {
      assert Fits(ws[1..]) by {
        forall i | 0 <= i < |ws| - 1 ensures ws[1..][i] == ws[i + 1] { }
      }
      assert PathLen(ws[0].path) < I64_LIMIT && IsTimestamp(ws[0].modified);
      ReadRecordOf(b, pos, ws[0].path, ws[0].modified, ws[0].size, ws[0].offset);
      LaidReads(b, pos + RecordLen(ws[0].path), ws[1..]);
    }
  }

  // ----- the metadata as a whole -----

  lemma {:induction false} SerializeAppend(ws: seq<Written>, vs: seq<Written>)
    ensures Serialize(ws + vs) == Serialize(ws) + Serialize(vs)
  {
    if ws == [] {
      assert ws + vs == vs;
    } else {
      assert (ws + vs)[1..] == ws[1..] + vs;
      SerializeAppend(ws[1..], vs);
      AppendAssoc(RecordBytes(ws[0].path, ws[0].modified, ws[0].size, ws[0].offset), Serialize(ws[1..]), Serialize(vs));
    }
  }

  /** The metadata `write_package` writes are the records of `files` one after another. */
  lemma {:induction false} RecordsAreWritten(disk: map<string, DiskFile>, files: seq<string>)
    requires AllOnDisk(disk, files) && TotalSize(disk, files) < U64_LIMIT
    ensures Records(disk, files) == Serialize(WrittenRecords(disk, files))
  {
    if files != [] {
      InitOnDisk(disk, files);
      var last := files[|files| - 1];
      var w := Written(last, disk[last].modified, disk[last].size, TotalSize(disk, Init(files)));
      RecordsAreWritten(disk, Init(files));
      SerializeAppend(WrittenRecords(disk, Init(files)), [w]);
      assert Serialize([w]) == RecordBytes(w.path, w.modified, w.size, w.offset) + Serialize([]);
    }
  }

  lemma {:induction false} MetaLenInit(files: seq<string>)
    requires files != []
    ensures MetaLen(files) == MetaLen(Init(files)) + RecordLen(files[|files| - 1])
  {
    if |files| > 1 {
      var tail := files[1..];
      assert Init(tail) == Init(files)[1..];
      assert Init(files)[0] == files[0];
      MetaLenInit(tail);
    } else {
      assert Init(files) == [] && files[1..] == [];
    }
  }

  /** The records take exactly the `meta_len` the first loop adds up. */
  lemma {:induction false} RecordsLength(disk: map<string, DiskFile>, files: seq<string>)
    requires AllOnDisk(disk, files)
    ensures |Records(disk, files)| == MetaLen(files)
  {
    if files != [] {
      InitOnDisk(disk, files);
      var last := files[|files| - 1];
      RecordsLength(disk, Init(files));
      MetaLenInit(files);
      RecordBytesLength(last, disk[last].modified, disk[last].size, TotalSize(disk, Init(files)));
    }
  }

  /** In a packable set of files, every record's numbers fit. */
  lemma {:induction false} WrittenFits(disk: map<string, DiskFile>, files: seq<string>)
    requires Packable(disk, files)
    ensures Fits(WrittenRecords(disk, files))
  {
    if files != [] {
      InitOnDisk(disk, files);
      MetaLenInit(files);
      TimesInit(disk, files);
      WrittenFits(disk, Init(files));
      var ws := WrittenRecords(disk, files);
      assert forall i | 0 <= i < |ws| - 1 :: ws[i] == WrittenRecords(disk, Init(files))[i];
    }
  }

  // ----- decoding what was written -----

  /**
   * Decoding a package written from `files` gives the index of all its
   * records and, as the data, the files' bytes.
   */
  lemma DecodeBlob(disk: map<string, DiskFile>, files: seq<string>)
    requires Packable(disk, files)
    ensures Decode(Blob(disk, files)) == Ok(Package(Index(disk, files), Contents(disk, files)))
  {
    var b := Blob(disk, files);
    var m := MetaLen(files);
    var h := U64Be(m);
    var r := Records(disk, files);
    var c := Contents(disk, files);
    RecordsLength(disk, files);
    RecordsAreWritten(disk, files);
    WrittenFits(disk, files);
    Whole(b);
    BytesAtAppend(b, 0, h + r, c);
    BytesAtAppend(b, 0, h, r);
    SerializedLaid(b, 8, WrittenRecords(disk, files));
    LaidReads(b, 8, WrittenRecords(disk, files));
    DecodeWritten(b, m, 8, 0, map[], WrittenRecords(disk, files));
    assert ReadU64At(b, 0) == Some(m) by {
      U64AtAppendLeft(h + r, c, 0);
      U64AtAppendLeft(h, r, 0);
      U64RoundTrip(m);
    }
    assert b[m + 8..] == c;
  }
}
