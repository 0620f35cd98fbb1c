/**
 * The storage interface of src/fs/mod.rs: the `Entry` a directory listing
 * yields, the `TemplateEntry` handed to the listing template, and the
 * `FileSystem` capability set every backing store implements.
 *
 * Times are whole seconds since the Unix epoch. Formatting a time for the
 * template (chrono's `format`) is a parameter the caller supplies.
 */
module FileSystems {
  import opened Base

  datatype Entry =
    | File(name: string, size: u64, lastModified: int)
    | Dir(name: string)

  datatype TemplateEntry = TemplateEntry(name: string, size: u64, lastModified: string, isFile: bool)

  /**
   * `TemplateEntry::from(&Entry)`. A file's time goes through
   * `DateTime::from`, which panics on a time chrono cannot represent.
   */
  function ToTemplateEntry(e: Entry, formatTime: int -> string): (r: Result<TemplateEntry>)
    ensures r.Ok? <==> (e.File? ==> IsTimestamp(e.lastModified))
    ensures !r.Ok? ==> r == Panic(NO_SUCH_LOCAL_TIME)
    ensures r.Ok? ==> r.value.name == e.name && (r.value.isFile <==> e.File?)
    ensures r.Ok? && e.File? ==> r.value.size == e.size && r.value.lastModified == formatTime(e.lastModified)
    ensures r.Ok? && e.Dir? ==> r.value.size == 0 && r.value.lastModified == ""
  {
    match e
    case File(name, size, lastModified) =>
      if !IsTimestamp(lastModified) then Panic(NO_SUCH_LOCAL_TIME)
      else Ok(TemplateEntry(name, size, formatTime(lastModified), true))
    case Dir(name) => Ok(TemplateEntry(name, 0, "", false))
  }

  /**
   * The `FileSystem` trait as a record of its operations. `openAt(path,
   * start)` yields the bytes the returned reader produces: the file from
   * `start` (0 when absent) to its end.
   */
  datatype FileSystem = FileSystem(
    isFile: string -> bool,
    isDir: string -> bool,
    lastModified: string -> Result<int>,
    size: string -> Result<u64>,
    openAt: (string, Option<u64>) -> Result<seq<byte>>,
    pathValid: string -> bool,
    entries: string -> Result<seq<Entry>>)
}
