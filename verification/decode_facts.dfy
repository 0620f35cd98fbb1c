/**
 * How `Package::from_bytes` (src/fs/embedded.rs) treats bytes that are not
 * a well-formed package: which inputs give an error, which panic, what it
 * does not notice, and a slicing panic that no input reaches.
 */
module DecodeFacts {
  import opened Base
  import opened ByteOrder
  import Utf8
  import opened Embedded

  /** Fewer than eight bytes: reading `meta_len` runs past the end. */
  lemma ShortInput(b: seq<byte>)
    requires |b| < 8
    ensures Decode(b) == Err(UnexpectedEof)
  {
  }

  /** Metadata announced but no room for the first `path_len`. */
  lemma TruncatedPathLen(b: seq<byte>)
    requires 8 <= |b| < 16 && U64At(b, 0) > 0
    ensures Decode(b) == Err(UnexpectedEof)
  {
    DecodeLoopStep(b, U64At(b, 0), 8, 0, map[], ReadRecord(b, 8));
  }

  /** The first path's bytes are not UTF-8 (or stop short of `path_len`). */
  lemma InvalidPath(b: seq<byte>)
    requires 16 <= |b| && U64At(b, 0) > 0
    requires Utf8.Decode(TakeAt(b, 16, U64At(b, 8))) == None
    ensures Decode(b) == Err(InvalidUtf8)
  {
    DecodeLoopStep(b, U64At(b, 0), 8, 0, map[], ReadRecord(b, 8));
  }

  /**
   * The first path reads, but the three numbers after it run past the end
   * (a time that is there is one chrono can represent).
   */
  lemma TruncatedNumbers(b: seq<byte>, path: string)
    requires 16 <= |b| && U64At(b, 0) > 0 && U64At(b, 8) < I64_LIMIT
    requires Utf8.Decode(TakeAt(b, 16, U64At(b, 8))) == Some(path)
    requires 16 + U64At(b, 8) + 24 > |b|
    requires 16 + U64At(b, 8) + 8 <= |b| ==> IsTimestamp(AsI64(U64At(b, 16 + U64At(b, 8))))
    ensures Decode(b) == Err(UnexpectedEof)
  {
    DecodeLoopStep(b, U64At(b, 0), 8, 0, map[], ReadRecord(b, 8));
  }

  /**
   * The first record's time is outside chrono's range: `Utc.timestamp`
   * panics, whatever follows it.
   */
  lemma UnrepresentableTime(b: seq<byte>, path: string)
    requires 16 <= |b| && U64At(b, 0) > 0 && U64At(b, 8) < I64_LIMIT
    requires Utf8.Decode(TakeAt(b, 16, U64At(b, 8))) == Some(path)
    requires 16 + U64At(b, 8) + 8 <= |b| && !IsTimestamp(AsI64(U64At(b, 16 + U64At(b, 8))))
    ensures Decode(b) == Panic(NO_SUCH_LOCAL_TIME)
  {
    assert ReadRecord(b, 8) == Panic(NO_SUCH_LOCAL_TIME);
    DecodeLoopStep(b, U64At(b, 0), 8, 0, map[], ReadRecord(b, 8));
  }

  /**
   * A `meta_len` that ends inside the first record goes unnoticed: the
   * loop reads the whole record, finds `read >= meta_len` and stops, and
   * the data starts at `meta_len + 8`, inside that record.
   */
  lemma MetaLenInsideRecord(b: seq<byte>, rec: RecordRead)
    requires 8 <= |b| && 0 < U64At(b, 0)
    requires ReadRecord(b, 8) == Ok(rec) && 8 + U64At(b, 0) < rec.end
    ensures Decode(b) == Ok(Package(map[rec.path := rec.file], b[U64At(b, 0) + 8..]))
  {
    DecodeLoopStep(b, U64At(b, 0), 8, 0, map[], ReadRecord(b, 8));
  }

  /** Every record the decoding loop inserts has a time chrono can represent. */
  lemma {:induction false} LoopTimes(b: seq<byte>, metaLen: u64, pos: nat, read: u64, files: map<string, InternalFile>)
    requires forall k | k in files :: IsTimestamp(files[k].lastModified)
    ensures var r := DecodeLoop(b, metaLen, pos, read, files);
      r.Ok? ==> forall k | k in r.value :: IsTimestamp(r.value[k].lastModified)
    decreases metaLen - read
  {
    if read < metaLen {
      var r := ReadRecord(b, pos);
      DecodeLoopStep(b, metaLen, pos, read, files, r);
      if r.Ok? && pos < r.value.end && read + (r.value.end - pos) < U64_LIMIT {
        LoopTimes(b, metaLen, r.value.end, read + (r.value.end - pos), files[r.value.path := r.value.file]);
      }
    }
  }

  /** A decoded package holds only times chrono can represent, as its `DateTime<Utc>` values must be. */
  lemma DecodedTimes(b: seq<byte>)
    ensures Decode(b).Ok? ==> forall k | k in Decode(b).value.files :: IsTimestamp(Decode(b).value.files[k].lastModified)
  {
    if ReadU64At(b, 0).Some? {
      LoopTimes(b, ReadU64At(b, 0).value, 8, 0, map[]);
    }
  }

  /** A record that reads successfully ends inside the bytes. */
  lemma RecordEnd(b: seq<byte>, pos: nat)
    requires ReadRecord(b, pos).Ok?
    ensures ReadRecord(b, pos).value.end <= |b|
  {
  }

  /**
   * Whenever the decoding loop finishes, the cursor has passed `meta_len`
   * bytes of metadata without leaving the input, so the data still starts
   * inside it.
   */
  lemma {:induction false} LoopStaysInside(b: seq<byte>, metaLen: u64, pos: nat, read: u64, files: map<string, InternalFile>)
    requires pos == read + 8 && pos <= |b|
    ensures DecodeLoop(b, metaLen, pos, read, files).Ok? ==> metaLen + 8 <= |b|
    decreases metaLen - read
  {
    if read < metaLen {
      var r := ReadRecord(b, pos);
      DecodeLoopStep(b, metaLen, pos, read, files, r);
      if r.Ok? && pos < r.value.end && read + (r.value.end - pos) < U64_LIMIT {
        RecordEnd(b, pos);
        LoopStaysInside(b, metaLen, r.value.end, read + (r.value.end - pos), files[r.value.path := r.value.file]);
      }
    }
  }

  /**
   * The `&bytes[meta_len + 8..]` slice never panics: once the loop ends
   * normally (and `meta_len + 8` does not overflow), the package is the
   * index built and the bytes from `meta_len + 8` on.
   */
  lemma NoSliceStartPanic(b: seq<byte>)
    requires ReadU64At(b, 0).Some? && ReadU64At(b, 0).value + 8 < U64_LIMIT
    requires DecodeLoop(b, ReadU64At(b, 0).value, 8, 0, map[]).Ok?
    ensures ReadU64At(b, 0).value + 8 <= |b|
    ensures Decode(b) == Ok(Package(DecodeLoop(b, ReadU64At(b, 0).value, 8, 0, map[]).value, b[ReadU64At(b, 0).value + 8..]))
  {
    LoopStaysInside(b, ReadU64At(b, 0).value, 8, 0, map[]);
  }
}
