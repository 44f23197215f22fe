/** The application settings (`Config`): three typed fields with defaults,
    plain setters without range checks, and `load_from_file`, which merges a
    parsed YAML document into the current values key by key. Reading and
    parsing the file are outside the model: the parsed document is an input. */
module Settings {
  import opened Wrappers

  datatype Config = Config(wrkDir: string, maxSize: int, quality: int)

  /** `Config()`. */
  const Defaults: Config := Config("/tmp", 1920, 97)

  /** The defaults: working directory "/tmp", a 1920-pixel limit and
      quality 97; a missing or empty configuration file leaves them in place. */
  lemma DefaultValues()
    ensures Defaults.wrkDir == "/tmp" && Defaults.maxSize == 1920 && Defaults.quality == 97
    ensures LoadFromFile(Defaults, FileMissing) == Loaded(Defaults, None)
    ensures LoadFromFile(Defaults, Parsed(None)) == Loaded(Defaults, None)
  {
  }

  function SetWrkDir(c: Config, value: string): (r: Config)
    ensures r.wrkDir == value && r.maxSize == c.maxSize && r.quality == c.quality
  {
    c.(wrkDir := value)
  }

  /** Any integer is accepted; there is no range check. */
  function SetMaxSize(c: Config, value: int): (r: Config)
    ensures r.maxSize == value && r.wrkDir == c.wrkDir && r.quality == c.quality
  {
    c.(maxSize := value)
  }

  function SetQuality(c: Config, value: int): (r: Config)
    ensures r.quality == value && r.wrkDir == c.wrkDir && r.maxSize == c.maxSize
  {
    c.(quality := value)
  }

  /** A scalar as `yaml.safe_load` returns it. Everything that is neither a
      string, an integer nor a boolean (floats, null, lists, nested mappings)
      is only known by its type name. */
  datatype YamlValue = Str(s: string) | Int(i: int) | Bool(b: bool) | OtherValue(typeName: string)

  /** `isinstance(v, str)`. */
  function AsStr(v: YamlValue): Option<string> {
    if v.Str? then Some(v.s) else None
  }

  /** `isinstance(v, int)`: a boolean is an `int` in Python, with `True`
      behaving as 1 and `False` as 0. */
  function AsInt(v: YamlValue): (r: Option<int>)
    ensures r.Some? <==> v.Int? || v.Bool?
    ensures v.Bool? ==> r == Some(if v.b then 1 else 0)
  {
    match v
    case Int(i) => Some(i)
    case Bool(b) => Some(if b then 1 else 0)
    case _ => None
  }

  type Mapping = map<string, YamlValue>

  /** The file as `load_from_file` finds it. */
  datatype Document =
    | FileMissing
    | Parsed(data: Option<Mapping>)   // `None` for an empty document
    | Malformed(error: string)         // yaml.YAMLError
    | Unreadable(exceptionType: string) // open() or reading raised, e.g. IsADirectoryError, PermissionError

  /** What the call raised: the `YAMLError` it wraps with a message of its
      own, or an error of opening or reading the file, which it does not
      catch and which therefore escapes as it is. */
  datatype LoadError = ParseFailed(message: string) | ReadFailed(exceptionType: string)

  /** The configuration after the call, and what it raised, if anything. */
  datatype Loaded = Loaded(config: Config, raised: Option<LoadError>)

  /** The value a key supplies to a field, if present with the right type. */
  function StrEntry(m: Mapping, key: string): Option<string> {
    if key in m then AsStr(m[key]) else None
  }

  function IntEntry(m: Mapping, key: string): Option<int> {
    if key in m then AsInt(m[key]) else None
  }

  function Override<T>(current: T, supplied: Option<T>): T {
    if supplied.Some? then supplied.value else current
  }

  function Merge(c: Config, m: Mapping): (r: Config)
    ensures StrEntry(m, "wrk_dir").Some? ==> r.wrkDir == StrEntry(m, "wrk_dir").value
    ensures StrEntry(m, "wrk_dir").None? ==> r.wrkDir == c.wrkDir
    ensures IntEntry(m, "max_size").Some? ==> r.maxSize == IntEntry(m, "max_size").value
    ensures IntEntry(m, "max_size").None? ==> r.maxSize == c.maxSize
    ensures IntEntry(m, "quality").Some? ==> r.quality == IntEntry(m, "quality").value
    ensures IntEntry(m, "quality").None? ==> r.quality == c.quality
  {
    var afterDir := if StrEntry(m, "wrk_dir").Some? then SetWrkDir(c, StrEntry(m, "wrk_dir").value) else c;
    var afterSize := if IntEntry(m, "max_size").Some? then SetMaxSize(afterDir, IntEntry(m, "max_size").value) else afterDir;
    if IntEntry(m, "quality").Some? then SetQuality(afterSize, IntEntry(m, "quality").value) else afterSize
  }

  const ParseErrorPrefix: string := "Failed to parse configuration file: "

  /** `Config.load_from_file(path)`. */
  function LoadFromFile(c: Config, doc: Document): (r: Loaded)
    ensures r.raised.Some? <==> doc.Malformed? || doc.Unreadable?
    ensures r.raised.Some? ==> r.config == c
    ensures doc.Malformed? ==> r.raised == Some(ParseFailed(ParseErrorPrefix + doc.error))
    ensures doc.Unreadable? ==> r.raised == Some(ReadFailed(doc.exceptionType))
    ensures doc.FileMissing? || doc == Parsed(None) ==> r.config == c
    ensures doc.Parsed? && doc.data.Some? ==>
              r.config.wrkDir == Override(c.wrkDir, StrEntry(doc.data.value, "wrk_dir"))
              && r.config.maxSize == Override(c.maxSize, IntEntry(doc.data.value, "max_size"))
              && r.config.quality == Override(c.quality, IntEntry(doc.data.value, "quality"))
  {
    match doc
    case FileMissing => Loaded(c, None)
    case Malformed(error) => Loaded(c, Some(ParseFailed(ParseErrorPrefix + error)))
    case Unreadable(exceptionType) => Loaded(c, Some(ReadFailed(exceptionType)))
    case Parsed(data) =>
      match data
      case None => Loaded(c, None)
      case Some(m) => Loaded(Merge(c, m), None)
  }

  /** Loading the same document twice is the same as loading it once. */
  lemma LoadIdempotent(c: Config, doc: Document)
    ensures LoadFromFile(LoadFromFile(c, doc).config, doc) == LoadFromFile(c, doc)
  {
  }

  /** A later document overrides exactly the keys it supplies: the fields it
      leaves out keep what the earlier one set. */
  lemma LaterDocumentWins(c: Config, m1: Mapping, m2: Mapping)
    ensures var r := Merge(Merge(c, m1), m2);
            && r.wrkDir == Override(Override(c.wrkDir, StrEntry(m1, "wrk_dir")), StrEntry(m2, "wrk_dir"))
            && r.maxSize == Override(Override(c.maxSize, IntEntry(m1, "max_size")), IntEntry(m2, "max_size"))
            && r.quality == Override(Override(c.quality, IntEntry(m1, "quality")), IntEntry(m2, "quality"))
    ensures StrEntry(m2, "wrk_dir").Some? && IntEntry(m2, "max_size").Some? && IntEntry(m2, "quality").Some? ==>
              Merge(Merge(c, m1), m2) == Merge(c, m2)
  {
  }

  /** Two documents that supply disjoint fields can be loaded in either order. */
  lemma DisjointDocumentsCommute(c: Config, m1: Mapping, m2: Mapping)
    requires StrEntry(m1, "wrk_dir").None? || StrEntry(m2, "wrk_dir").None?
    requires IntEntry(m1, "max_size").None? || IntEntry(m2, "max_size").None?
    requires IntEntry(m1, "quality").None? || IntEntry(m2, "quality").None?
    ensures Merge(Merge(c, m1), m2) == Merge(Merge(c, m2), m1)
  {
  }

  /** A wrongly typed value is ignored while the other keys still apply:
      `{"wrk_dir": 12345, "max_size": "invalid", "quality": 85}` changes only
      the quality. */
  lemma WrongTypesIgnored()
    ensures LoadFromFile(Defaults, Parsed(Some(map["wrk_dir" := Int(12345), "max_size" := Str("invalid"),
                                                   "quality" := Int(85)])))
         == Loaded(Config("/tmp", 1920, 85), None)
  {
  }

  /** `max_size: true` is accepted as an integer and sets the size to 1. */
  lemma BooleanCountsAsInteger(c: Config)
    ensures LoadFromFile(c, Parsed(Some(map["max_size" := Bool(true)]))).config == c.(maxSize := 1)
  {
  }
}
