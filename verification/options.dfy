/**
 * Server options and their by-value builder (src/options.rs). The Rust
 * getters `allow_directory_listing()` and `prefix()` are the datatype's field
 * accessors here; the builder's setters and `into()` are record updates.
 */
module ServerOptions {
  import opened Text

  datatype Options = Options(allowDirectoryListing: bool, prefix: string)
  {
    /** `Options::default()`: listing off, everything under `/` served. */
    static function Default(): (o: Options)
      ensures !o.allowDirectoryListing
      ensures o.prefix == "/"
    {
      Options(false, "/")
    }
  }

  datatype OptionsBuilder = OptionsBuilder(options: Options)
  {
    static function New(): (b: OptionsBuilder)
      ensures b.options == Options.Default()
    {
      OptionsBuilder(Options.Default())
    }

    /** Sets the listing flag and nothing else. */
    function AllowDirectoryListing(allow: bool): (b: OptionsBuilder)
      ensures b.options.allowDirectoryListing == allow
      ensures b.options.prefix == options.prefix
    {
      OptionsBuilder(options.(allowDirectoryListing := allow))
    }

    /** Sets the prefix and nothing else. */
    function Prefix(prefix: string): (b: OptionsBuilder)
      ensures b.options.prefix == prefix
      ensures b.options.allowDirectoryListing == options.allowDirectoryListing
    {
      OptionsBuilder(options.(prefix := prefix))
    }

    /**
     * `Into<Options>`: the built options, with the prefix made to end in `/`
     * by appending one when it does not already.
     */
    function Into(): (o: Options)
      ensures EndsWith(o.prefix, '/')
      ensures o.allowDirectoryListing == options.allowDirectoryListing
      ensures EndsWith(options.prefix, '/') ==> o.prefix == options.prefix
      ensures !EndsWith(options.prefix, '/') ==> o.prefix == options.prefix + "/"
    {
      if EndsWith(options.prefix, '/') then options
      else options.(prefix := options.prefix + "/")
    }
  }

  /** Building twice from built options changes nothing. */
  lemma IntoIdempotent(b: OptionsBuilder)
    ensures OptionsBuilder(b.Into()).Into() == b.Into()
  {
  }

  /** `OptionsBuilder::new().prefix("/test").into()` serves under `/test/`. */
  lemma PrefixExample()
    ensures OptionsBuilder.New().Prefix("/test").Into() == Options(false, "/test/")
  {
  }
}
