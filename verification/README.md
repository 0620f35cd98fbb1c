# rocket_static_fs, modelled in Dafny

rocket_static_fs is a Rocket fairing. It serves static files under a URL prefix from a pluggable store. The store is either the local disk or an *embedded package*: one byte blob that holds a metadata index and then the files' contents. This project models two parts of it, plus the small value types they rely on:

- **The embedded package codec and its directory view** (`src/fs/embedded.rs`):
  - `write_package` flattens a list of files into a blob.
  - `Package::from_bytes` walks the metadata with a cursor and a `read` counter and builds a path index.
  - `open` slices one file's bytes out of the data.
  - `is_dir` and `entries` derive directories from the flat path index.
  - `EmbeddedFileSystem` exposes all of this through the `FileSystem` interface.
- **The request resolution engine** (`src/lib.rs`):
  - `Range::from_str` and `Range::len` read a `Range` header.
  - `on_response` and `handle_directory_listing` decide whether a request is declined or answered with 403, 404, 302, a directory listing, 304, HEAD's headers, 206 or 200.
- **The options** (`src/options.rs`) and the **listing entries** (`src/fs/mod.rs`).

## Semantics

**Debug-build semantics.** Integer arithmetic follows a Rust debug build:
- A `u64` addition that overflows, or a subtraction that underflows, is a panic.
- `usize` is taken as 64 bits, so `write_package`'s `meta_len` and `data_offset` (src/fs/embedded.rs:284-314) overflow at 2^64, as a `u64` does.
- Every fallible operation returns a `Result` with four outcomes: `Ok`, `Err(error)`, `Panic(message)`, and `Diverge` for the one place where the decoder loops forever.
- A method that models code with early returns propagates a failure unchanged.

**Functions and methods.** Where the source updates state step by step, the model has a method. Each such method is proved equal to a function of its inputs:
- `Embedded.FromBytes` moves a `Cursor` object and is proved equal to `Embedded.Decode`.
- `PackageWriter.WritePackage` appends to its output and is proved equal to `PackageWriter.Encode`.
- `Server.OnResponse` updates a `Response` object and is proved to leave it in the state `StaticFileServer.Respond` describes.

The properties are then proved about those functions.

**What the code does at its edges.** The model follows the code in these places:
- **Decoding misaligned metadata.** The decoder does not reject a metadata length that ends inside a record: the loop simply stops, and the data starts in the middle of that record (`DecodeFacts.MetaLenInsideRecord`). The slice `&bytes[meta_len + 8..]` never panics. A metadata length past the end of the input makes the loop fail before the slice is reached: a record read runs past the input and gives an end-of-file error, or the loop panics on `read +=`, or it loops forever (`DecodeFacts.LoopStaysInside`, `DecodeFacts.NoSliceStartPanic`).
- **Times chrono cannot represent.** `Utc.timestamp` and `DateTime::from` panic on a time outside chrono's range, taken here as 1 January of the year -262144 to 31 December 262143 (`Base.IsTimestamp`). This happens when the decoder reads a record's time (`DecodeFacts.UnrepresentableTime`) and when `write_package` writes one (`PackageWriter.EncodeUnrepresentableTime`). It also happens when the fairing serves a file (`ResponseFacts.UnrepresentableTimePanics`) and when it lists a directory holding such a file (`ResponseFacts.ListsDirectory`).
- **The `Content-Range` format.** The code writes `typ=start-end/size`, with `end = start + Content-Length`, rather than the form of section 4.2 of RFC 7233 (`Server.PartialReply`).
- **Open ranges.** An open range `typ=s-` on a file of `n` bytes announces `Content-Length: n - s + 1`, one more than the bytes sent (`ResponseFacts.OpenRangeOverstates`).
- **A whole-file GET** sets no `Content-Length` (`ResponseFacts.WholeFile`).
- **A closed range ending at `u64::MAX`.** `Range: bytes=s-18446744073709551615` panics on an addition: in `Range::len` when `s` is 0, and at `start + content_length` otherwise (`RangeHeader.Range.Len`, `ResponseFacts.RangeEndAtMaxPanics`).

**Redirects.** The `Location` of a directory redirect is `"/" + path + "/"`, without the prefix the path was found under.

**Path validity in the embedded store.** The embedded store's `path_valid` holds only for file keys. So a directory served from a package is always refused with 403 before listing is considered (`EmbeddedServing.OnlyKeysServed`).

## Model

| member | source | states |
|---|---|---|
| Embedded.ReadU64At | src/fs/embedded.rs:149 | a big-endian `u64` read at a position succeeds exactly when eight bytes remain there |
| Embedded.SeekTarget | src/fs/embedded.rs:154 | seeking by a signed offset lands at position + offset, inside the `u64` range, or fails |
| Embedded.Cursor.constructor | src/fs/embedded.rs:141 | a fresh cursor sits at position 0 over the package bytes |
| Embedded.Cursor.ReadU64 | src/fs/embedded.rs:149 | returns the value at the old position and advances by 8 on success; on end of input it leaves the position |
| Embedded.Cursor.ReadI64 | src/fs/embedded.rs:156 | reads the same eight bytes as a two's-complement `i64` and advances by 8 on success |
| Embedded.Cursor.SeekCurrent | src/fs/embedded.rs:154 | moves to the seek target when there is one; otherwise reports failure and stays |
| Embedded.ReadRecord | src/fs/embedded.rs:148-162 | a record read never loops forever; its only panic is chrono's on a time it cannot represent; a record read carries a representable time |
| Embedded.ReadNext | src/fs/embedded.rs:148-162 | one loop pass: `path_len`, path through a cloned cursor, seek, the time (a panic when chrono cannot represent it), length and start; result equals `ReadRecord` at the old position, and the cursor ends at the record's end |
| Embedded.DecodeLoopStep | src/fs/embedded.rs:147-174 | one turn of the `while read < meta_len` loop: a failed record read (error or panic) ends it, a backward move panics on `read +=`, a move of zero loops forever, otherwise the loop continues with the record inserted |
| Embedded.Pass | src/fs/embedded.rs:148-172 | the loop body strictly increases `read`, and the loop's outcome from the new state equals its outcome from the old one; a failure is the loop's outcome |
| Embedded.FromBytes | src/fs/embedded.rs:140-178 | the cursor-and-counter decoder returns exactly `Decode(bytes)`, failures included |
| Embedded.Open | src/fs/embedded.rs:180-193 | a missing path is `FileDoesNotExist`; it succeeds iff the record lies inside the data, with exactly `len` bytes `data[start..start+len]` |
| Embedded.OpenFrom | src/fs/embedded.rs:99-111 | succeeds iff `open` does; the file's bytes from `start` on, all of them for no start, none when `start` is past the end |
| Embedded.ChildTest | src/fs/embedded.rs:211-218 | "starts with P, and what follows P starts with `/`" is the same as "starts with P + `/`" |
| Embedded.IsDir | src/fs/embedded.rs:195-223 | the key scan with early return answers exactly: `/`, or some key starts with the path (one leading `/` removed) + `/` |
| Embedded.EntryForShape | src/fs/embedded.rs:237-257 | a key contributes an entry iff it starts with dir + `/`; the rest names a `File` with the record's length and time when it has no `/`, else a `Dir` named by its first segment; names never hold `/` |
| Embedded.Visit | src/fs/embedded.rs:236-257 | the loop body appends exactly the key's contribution to the entries |
| Embedded.VisitOrderIrrelevant | src/fs/embedded.rs:235-258 | visiting the keys in any order, each once, collects the same multiset of entries |
| Embedded.Entries | src/fs/embedded.rs:225-266 | always `Ok`; sorted by name; a permutation of the listing of the keys below the directory |
| Embedded.ListingMembers | src/fs/embedded.rs:225-266 | an entry is listed iff some key below the directory contributes it |
| Embedded.ListedFile | src/fs/embedded.rs:251-255 | a listed `File` is the record stored under dir/name, with its length and time |
| Embedded.ListedDir | src/fs/embedded.rs:246-248 | a listed `Dir` is a directory by `is_dir` |
| Embedded.DirectoryOfKey | src/fs/embedded.rs:195-223 | every proper `/`-prefix of a stored key is a directory, with or without a leading `/` |
| Embedded.StoreLookups | src/fs/embedded.rs:64-125 | `is_file` and `path_valid` hold exactly for keys; `size` and `last_modified` are the record's fields or `FileDoesNotExist`; `open(p, Some(s))` yields the bytes from `s` (none past the end); `/` is a directory |
| Embedded.LoadEmbedded | src/fs/embedded.rs:57-60 | succeeds iff the package decodes, holding the decoded package; otherwise the decoder's failure |
| PackageWriter.Normalize | src/fs/embedded.rs:304 | turning `\` into `/` keeps the number of characters |
| PackageWriter.NormalizeKeepsPathLen | src/fs/embedded.rs:303-304 | the normalized path has the same UTF-8 byte length as the `path_len` written for it |
| PackageWriter.Survey | src/fs/embedded.rs:285-296 | when the first loop succeeds its `meta_len` is the sum of 32 + path bytes over the files, and every file was on disk |
| PackageWriter.SurveySpec | src/fs/embedded.rs:285-296 | success means every path length fits a `u64`; an error is an I/O error from a file missing on disk |
| PackageWriter.GatherMetadata | src/fs/embedded.rs:285-296 | the loop yields the survey's `meta_len` and, per file in order, its size and modification time; failures are the survey's |
| PackageWriter.DataOffsetSpec | src/fs/embedded.rs:301-315 | the records loop completes iff every time is representable and the sizes add up to less than 2^64, ending on their sum; otherwise it panics on the time, or on the sum when every time is representable |
| PackageWriter.WriteRecords | src/fs/embedded.rs:301-315 | appends one record per file, offsets the running size sum; fails exactly as `DataOffset` does, panicking on the first unrepresentable time or when the sizes reach 2^64 |
| PackageWriter.EncodeUnrepresentableTime | src/fs/embedded.rs:306 | a listed file with a time chrono cannot represent makes `write_package` panic, once the survey has passed and the sizes fit |
| PackageWriter.WriteContents | src/fs/embedded.rs:317-320 | appends the files' bytes in order |
| PackageWriter.WritePackage | src/fs/embedded.rs:273-323 | sorts, surveys, writes `meta_len`, records and contents; the output equals `Encode` |
| PackageRoundTrip.RecordBytesLength | src/fs/embedded.rs:287-288 | each record is 32 bytes plus the path's bytes |
| PackageRoundTrip.RecordsLength | src/fs/embedded.rs:299-315 | the records written are exactly `meta_len` bytes long |
| PackageRoundTrip.RecordValues | src/fs/embedded.rs:303-312 | reading a written record's fields back gives path length, path bytes, time, size and offset |
| PackageRoundTrip.ReadRecordOf | src/fs/embedded.rs:148-162 | a loop pass over a written record reads back its normalized path and its values and ends right after it |
| PackageRoundTrip.DecodeWritten | src/fs/embedded.rs:147-174 | over written records, the loop stops with `read == meta_len` exactly, having inserted each record in order |
| PackageRoundTrip.DecodeBlob | src/fs/embedded.rs:140-178 | decoding a written blob gives the index of the records and the data starting at `meta_len + 8` |
| PackageLayout.IndexKeys | src/fs/embedded.rs:166-173 | the decoded index's keys are exactly the normalized paths |
| PackageLayout.IndexLast | src/fs/embedded.rs:166-173 | a path holds the entry of its last record (later inserts overwrite) |
| PackageLayout.ContentsLength | src/fs/embedded.rs:317-320 | the data is as long as the sum of the sizes |
| PackageLayout.OffsetsTile | src/fs/embedded.rs:301-320 | offsets start at 0, each is the previous plus that file's size, the last is the data length, and each interval holds exactly that file's bytes |
| PackageLayout.OpenWritten | src/fs/embedded.rs:180-193 | a file not followed by one normalizing alike opens to exactly its bytes |
| PackageLayout.EncodeIsBlob | src/fs/embedded.rs:273-323 | the writer's output is the blob of the sorted files |
| PackageLayout.SortedIndexKeys | src/fs/embedded.rs:279-280 | sorting loses no path: the index keys are exactly the normalized input paths |
| PackageLayout.EncodeDecode | src/fs/embedded.rs:140-178 | decoding what `write_package` emits gives the index of the sorted files and their concatenated contents |
| PackageLayout.WrittenFileOpens | src/fs/embedded.rs:273-323 | round trip: for a path no other input normalizes to, the decoded record has the file's length and time and `open` gives exactly its bytes |
| DecodeFacts.ShortInput | src/fs/embedded.rs:142 | fewer than 8 bytes is an end-of-file error |
| DecodeFacts.TruncatedPathLen | src/fs/embedded.rs:149 | a `path_len` running past the end is an end-of-file error |
| DecodeFacts.InvalidPath | src/fs/embedded.rs:153 | path bytes that are not UTF-8 are an error |
| DecodeFacts.TruncatedNumbers | src/fs/embedded.rs:156-160 | a time, length or start running past the end is an end-of-file error (a time that is there being representable) |
| DecodeFacts.UnrepresentableTime | src/fs/embedded.rs:156-157 | a first record whose time chrono cannot represent panics in `Utc.timestamp`, whatever follows it |
| DecodeFacts.LoopTimes | src/fs/embedded.rs:147-174 | every record the loop inserts carries a time chrono can represent |
| DecodeFacts.DecodedTimes | src/fs/embedded.rs:140-178 | a decoded package holds only representable times |
| DecodeFacts.MetaLenInsideRecord | src/fs/embedded.rs:147 | a `meta_len` that ends inside the first record goes unnoticed: the loop exits and the data starts mid-record |
| DecodeFacts.LoopStaysInside | src/fs/embedded.rs:147-174 | a loop that succeeds never ends past the input |
| DecodeFacts.NoSliceStartPanic | src/fs/embedded.rs:176 | after a successful loop the data slice cannot panic; the package is the index and the suffix at `meta_len + 8` |
| ByteOrder.U64RoundTrip | src/fs/embedded.rs:299 | reading back a big-endian `u64` gives the value written |
| ByteOrder.I64RoundTrip | src/fs/embedded.rs:307 | reading back a big-endian `i64` gives the value written |
| Utf8.DecodeEncode | src/fs/embedded.rs:153 | the path written as UTF-8 reads back as the same string |
| Text.SortBy | src/fs/embedded.rs:260-263 | `sort_by_key`: sorted by the key, and a permutation of its input |
| Text.SortByMembers | src/fs/embedded.rs:279-280 | sorting keeps exactly the elements it is given |
| ServerOptions.Options.Default | src/options.rs:8-16 | listing off and prefix `/` |
| ServerOptions.OptionsBuilder.New | src/options.rs:38-42 | a new builder holds the default options |
| ServerOptions.OptionsBuilder.AllowDirectoryListing | src/options.rs:44-47 | sets the listing flag and keeps the prefix |
| ServerOptions.OptionsBuilder.Prefix | src/options.rs:54-57 | sets the prefix and keeps the listing flag |
| ServerOptions.OptionsBuilder.Into | src/options.rs:60-67 | the prefix ends with `/`: unchanged when it already did, else exactly one `/` appended; the flag is kept |
| ServerOptions.IntoIdempotent | src/options.rs:60-67 | building again from built options changes nothing |
| ServerOptions.PrefixExample | src/lib.rs:448 | `prefix("/test")` becomes `/test/` |
| FileSystems.ToTemplateEntry | src/fs/mod.rs:30-53 | a `File` whose time chrono cannot represent panics, and nothing else fails; name kept; `is_file` iff a `File`; a `File` keeps its size and formats its time; a `Dir` has size 0 and an empty time |
| RangeHeader.Range.Len | src/lib.rs:118-124 | `None` without an end; with an end, `Some(end - start + 1)` when that fits in a `u64`, a subtraction panic when the end is before the start, and an addition panic when the range covers all 2^64 values |
| RangeHeader.FirstMatch | src/lib.rs:71-74 | a position found is a match of the pattern |
| RangeHeader.FirstMatchSpec | src/lib.rs:71-74 | the match found is the leftmost; none found means none anywhere |
| RangeHeader.LineStart | src/lib.rs:71-74 | the lazy `(.*?)` starts after the last newline before the `=` |
| RangeHeader.LineStartSpec | src/lib.rs:71-74 | the captured type holds no newline |
| RangeHeader.Parse | src/lib.rs:127-158 | parsing never panics: it gives a range or an error |
| RangeHeader.ClosedForm | src/lib.rs:131-141 | `typ=n-m…` parses to `typ`, `n`, `Some(m)`; an overflowing number is an error and the open form is not tried |
| RangeHeader.OpenFormAt | src/lib.rs:143-153 | with no closed match, `typ=n-` parses to `typ`, `n`, no end |
| RangeHeader.OpenForm | src/lib.rs:143-153 | `typ=n-` followed by no digit parses to `typ`, `n`, no end (or an overflow error) |
| RangeHeader.NoMatch | src/lib.rs:155 | parsing fails with the invalid-header error iff no `=digits-` occurs anywhere |
| RangeHeader.ParseExample | src/lib.rs:514-522 | `bytes=0-1023` parses to `bytes`, 0, `Some(1023)` |
| RangeHeader.ClosedExample | src/lib.rs:474-481 | `bytes=5-10` parses to `bytes`, 5, `Some(10)` |
| RangeHeader.OpenExample | src/lib.rs:483-488 | `bytes=0-` parses to `bytes`, 0, no end |
| Decimal.DigitRunSpec | src/lib.rs:72-73 | a `\d+` run is maximal: all digits, then a non-digit or the end |
| Decimal.ParseU64 | src/lib.rs:133-135 | succeeds iff the digits' value is below 2^64, giving that value; otherwise an overflow error |
| Decimal.Show | src/lib.rs:309 | `format!("{}", n)` is a non-empty digit string with no leading zero |
| Decimal.ValueShow | src/lib.rs:309 | the digits written for `n` denote `n` |
| Decimal.ParseShow | src/lib.rs:309 | parsing a written `u64` gives it back |
| Server.RequestPathStripsPrefix | src/lib.rs:252 | a uri under the prefix loses exactly that prefix |
| Server.TemplateEntries | src/lib.rs:201-202 | succeeds iff every entry converts, with one template entry per listing entry, each the conversion of the entry in the same place; otherwise the conversion's panic |
| Server.RequestedRange | src/lib.rs:315-324 | reading the `Range` header never panics: a range or an error |
| Server.Take | src/lib.rs:351 | at most the first `n` bytes, a prefix of the stream |
| Server.HandleDirectoryListing | src/lib.rs:183-223 | the step-by-step listing handler leaves the response exactly as `DirectoryListing` describes, panics included |
| Server.OnResponse | src/lib.rs:237-389 | the step-by-step fairing leaves the response exactly as `Respond` describes, or returns the panic `Respond` names |
| Server.ServeFileTo | src/lib.rs:271-312 | the file part updates the response exactly as `ServeFile` describes |
| Server.SendFileTo | src/lib.rs:314-388 | the GET part updates the response exactly as `SendFile` describes |
| Server.SendRangeTo | src/lib.rs:348-362 | the range branch updates the response exactly as `PartialReply` describes |
| ResponseFacts.Declines | src/lib.rs:239-249 | unless the status is 404, the method GET or HEAD and the uri under the prefix, the response is untouched |
| ResponseFacts.RefusedPath | src/lib.rs:255-258 | a path the store refuses gets 403 and nothing else changes |
| ResponseFacts.NotAFile | src/lib.rs:262-268 | a non-file that is not a listable directory gets 404 |
| ResponseFacts.RedirectsDirectory | src/lib.rs:183-191 | a listable directory without a trailing `/` gets 302 with `Location: "/" + path + "/"` |
| ResponseFacts.ListsDirectory | src/lib.rs:194-221 | a listable directory with a trailing `/` gets 403 when the store cannot list it, a panic when a file in it has an unrepresentable time, else the rendered page (200) or the template's error (500) |
| ResponseFacts.NoExtensionPanics | src/lib.rs:273 | a file without an extension panics on the `unwrap` |
| ResponseFacts.NoModifiedTimePanics | src/lib.rs:279 | a file without a modification time panics on the `expect` |
| ResponseFacts.UnrepresentableTimePanics | src/lib.rs:279-280 | a file whose time chrono cannot represent panics in `DateTime::from` |
| ResponseFacts.NotModifiedOnGet | src/lib.rs:285-295 | a GET whose If-Modified-Since names the modification second gets 304 with only `Content-Type` set |
| ResponseFacts.RevalidatesWithLastModified | src/lib.rs:285-295 | sending back the `Last-Modified` a GET received gives 304, when the date format reads back |
| ResponseFacts.HeadNeverNotModified | src/lib.rs:285 | HEAD never yields 304: a 304 after HEAD is the untouched prior response |
| ResponseFacts.HeadReply | src/lib.rs:307-312 | HEAD on a file gets 200, `Accept-Ranges: bytes` and `Content-Length` = size, body untouched |
| ResponseFacts.SizeFailure | src/lib.rs:297-303 | a size failure gets 403 |
| ResponseFacts.OpenFailure | src/lib.rs:384-387 | an open failure gets 403 |
| ResponseFacts.RangeNotUsed | src/lib.rs:315-324 | no `Range` header, or one with `,`, yields no range |
| ResponseFacts.WholeFile | src/lib.rs:334-382 | without a usable range: 200, `Accept-Ranges`, `Last-Modified`, the bytes opened from 0, no `Content-Range` |
| ResponseFacts.SendsRange | src/lib.rs:327-362 | a usable range opens the file at its start and replies by `PartialReply` |
| ResponseFacts.ClosedPartial | src/lib.rs:348-361 | a closed range gets 206, `Content-Length` e-s+1, `Content-Range` typ=s-(e+1)/n, the body capped at e-s+1 bytes |
| ResponseFacts.OpenPartial | src/lib.rs:348-361 | an open range gets 206, `Content-Length` n-s+1, `Content-Range` typ=s-(n+1)/n, the whole rest as body |
| ResponseFacts.ClosedRangeReply | src/lib.rs:348-361 | the full response to a GET with a closed range |
| ResponseFacts.ClosedRangeExact | src/lib.rs:349-353 | when the store yields the n-s bytes after s, a closed range sends exactly bytes s..e and announces that many |
| ResponseFacts.OpenRangeReply | src/lib.rs:348-361 | the full response to a GET with an open range |
| ResponseFacts.OpenRangeOverstates | src/lib.rs:349 | an open range announces one byte more than it sends |
| ResponseFacts.RangePastEndPanics | src/lib.rs:349 | a range starting past the end panics on `size - start` |
| ResponseFacts.ReversedRangePanics | src/lib.rs:118-124 | a closed range ending before its start panics in `len` |
| ResponseFacts.RangeEndAtMaxPanics | src/lib.rs:348-356 | a closed range ending at `u64::MAX` panics on an addition, in `len` or at `start + content_length` |
| EmbeddedServing.OnlyKeysServed | src/fs/embedded.rs:113-119 | with the embedded store, every path that is not a file key (directories included) gets 403 |
| EmbeddedServing.StoredBytesFrom | src/fs/embedded.rs:99-111 | opening a stored file from `s` gives the data from start+s to the file's end |
| EmbeddedServing.ReachesStoredFile | src/lib.rs:255-281 | a stored key with an extension and a representable time, as every decoded one has, reaches the file branch with the record's time and size |
| EmbeddedServing.HelloPath | src/lib.rs:244-276 | `/test/hello.txt` under prefix `/test/` is the path `hello.txt`, typed `text/plain` |
| EmbeddedServing.HelloExample | src/lib.rs:452-460 | GET `/test/hello.txt`: 200, `text/plain`, the twelve bytes |
| EmbeddedServing.HelloRangeExample | src/lib.rs:474-481 | `Range: bytes=5-10`: 206, `Content-Length: 6`, bytes 5 to 10 |
| EmbeddedServing.HelloOpenRangeExample | src/lib.rs:483-488 | `Range: bytes=0-`: 206 with all twelve bytes (announced as 13) |
| EmbeddedServing.RedirectExample | src/lib.rs:504-506 | GET `/src` on a store where `src` is a directory, listing on: 302 to `/src/` |

## Left out

- The `FileSystem` trait becomes a record of functions (`FileSystems.FileSystem`); the embedded store builds one from its package. `async_trait` and Rocket's fairing plumbing are left out; every call is synchronous.
- `src/fs/local.rs`, the local-disk store, is not part of this model. The engine's lemmas hold for any store whose times are whole seconds, as the embedded store's are.
- Sub-second modification times are not modelled. The local store returns its `SystemTime` with the fraction (src/fs/local.rs:33-35), and the 304 test is `num_seconds() == 0` (src/lib.rs:288-289), which truncates toward zero. So a file modified at 100.5 s gets 304 for `If-Modified-Since` 100 and for 101. The model's `Unmodified` compares whole seconds for equality, so it answers 304 to one of those two dates only.
- `create_package_from_dir` (WalkDir, canonicalize) is not modelled. `write_package`'s file system reads are replaced by a snapshot map from path to modification second, metadata size and bytes; a failed `metadata()` is an I/O error.
- Embedded.Entries: states the result as sorted by name and a permutation of `Listing`, not its exact order among equal names, because the source visits the keys in `HashMap` order; `Listing` itself visits them in ascending order.
- Times are whole seconds since the epoch. Parsing and formatting HTTP dates, `Path::extension`, the MIME table and the Handlebars rendering are `Host` parameters, so the listing page's contents (such as the `href="lib.rs"` check of the listing test) are not modelled.
- The `unwrap` on template registration, and the `to_str().unwrap()` on paths, cannot fail on the model's strings and are not modelled.
- The output writer of `write_package` is an in-memory byte sequence. So the errors that its `write_u64`, `write!` and `io::copy` calls can return (src/fs/embedded.rs:299-319) are not modelled. Neither is a `File::open` that fails in the last loop after the file's metadata was read.
- The gzip/deflate wrapping, compiled only under a `cfg` that never holds, is left out.
- Headers hold one value per name, as `set_header` leaves them; header-name case is not modelled. Only the first `If-Modified-Since` and `Range` values are read, as in the source.
- Release-build wrap-around is not modelled: overflow and underflow are panics, as in a debug build. The template error body is the debug build's.
- Regular-expression matching is hand-written for `(.*?)=(\d+)-(\d+)` and `(.*?)=(\d+)-`, with `\d` an ASCII digit. The source's `regex` `\d` is wider: it matches any Unicode decimal digit. A header such as `bytes=٣-5` then matches, `parse::<u64>` fails, the error is discarded and the whole file is sent. In the model such characters are not digits: the match falls on a later `=digits-` in the header, if there is one, and otherwise there is no match.
- EmbeddedServing.HelloExample: the test package's other four files are left out; the package is taken to hold `hello.txt` alone at offset 0, because the test fixture is generated at build time.
