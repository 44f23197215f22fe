/** The ImageMagick engine (`Converter2`): construction with its tool probe,
    the `identify` dimension probe, and the per-file `convert` protocol:
    access checks, skip decision, temporary file beside the target, the
    `convert` run, then either deletion of the temporary file (test mode) or
    move over the original, `chmod`, best-effort `chown`; and finally the
    statistics update.

    The filesystem is a map from path to file record. Every call out of the
    process (`os.access`, `subprocess.run`, `mkstemp`, `shutil.move`,
    `os.chmod`, `os.chown`) is replaced by an oracle answer passed in. */
module Converter2 {
  import opened Wrappers
  import opened PyStr
  import opened PyPath
  import opened Stats
  import opened Files

  // ---------------------------------------------------------------------------
  // Filesystem, oracles, failures
  // ---------------------------------------------------------------------------

  /** What `stat` would report about one file, plus an abstract identity of
      its bytes. */
  datatype FileRecord = FileRecord(content: nat, mode: int, uid: int, gid: int, size: nat)

  type FileSystem = map<string, FileRecord>

  /** `mkstemp` creates an empty file readable and writable by the owner only. */
  const EmptyContent: nat := 0
  const TempMode: int := 0x180   // 0o600

  /** How an operating-system call ended; a failure carries the errno class
      that decides which `OSError` subclass Python raises. */
  datatype OsError = PermissionDenied | NoSuchFile | AlreadyExists | OtherOsError(errno: int)
  datatype OsStep = Done | Fails(error: OsError)

  /** What launching an external program produced: it ran to an exit status,
      or `subprocess.run` raised the `OSError` of the failed launch
      (`NoSuchFile` for a missing executable, `PermissionDenied` for one that
      may not be executed, another errno for instance for a file that is not
      a program). `decodes` says whether the captured bytes are valid text in
      the locale's encoding; only a run made with `text=True` decodes them,
      and it does so before the exit status is looked at. */
  datatype Launch = Ran(exitCode: int, stdout: string, stderr: string, decodes: bool) | LaunchFailed(error: OsError)

  /** The `convert` run: on exit status 0 the output file holds `content` of
      `size` bytes. Its output stays bytes; `stderrDecodes` says whether its
      stderr is valid UTF-8, which `.decode()` needs on the error path. */
  datatype ConvertRun =
    | ConvertRan(exitCode: int, stderr: string, stderrDecodes: bool, content: nat, size: nat)
    | ConvertNotLaunched(error: OsError)

  /** How `shutil.move(tmp, path)` went. It first tries `os.rename`; when
      that raises, it falls back to `copy2` (rewrite the target in place, then
      copy the temporary file's times and mode onto it) and unlinks the
      temporary file. `copystat` sets the times before the mode. */
  datatype MoveRun =
    | Renamed                          // the target's name now refers to the temporary file
    | CopyRefused(error: OsError)      // the rename and the opening of the target both failed
    | CopiedOver                       // the target keeps its owner, gets the new bytes and the 0o600 mode
    | CopyStatFailed(error: OsError)   // the bytes were rewritten, then setting the times raised

  /** The answers of the outside world to one `convert(image_info)` call. */
  datatype Oracle = Oracle(
    readable: bool,          // os.access(path, R_OK) for an existing path
    writable: bool,          // os.access(path, W_OK)
    identify: Launch,        // identify -format "%w %h" <path>
    tokens: seq<TempToken>,  // the random name parts mkstemp draws, in order
    createTemp: OsStep,      // whether opening the first free name succeeded
    convert: ConvertRun,
    move: MoveRun,
    chmod: OsStep,
    chown: OsStep,
    euid: int,               // owner given to files this process creates
    egid: int
  )

  datatype ProbeError = ProbeUndecodable | ProbeExitStatus(code: int) | ProbeUnreadable(stdout: string)

  /** The system calls whose failure surfaces as an `OSError`. */
  datatype OsOp = RunIdentify | CreateTemp | RunConvert | MoveIntoPlace | CopyMetadata | RestoreMode | RestoreOwner

  /** Why a `convert` call raised. */
  datatype ConvertError =
    | NoReadAccess(path: string)
    | NoWriteAccess(path: string)
    | DimensionsUnavailable(cause: ProbeError)
    | ConvertFailed(stderr: string)
    | StderrUndecodable                 // `.decode()` of convert's stderr raised inside the handler
    | OsFailure(op: OsOp, error: OsError)

  /** The Python exception class the caller sees. The outer handler re-raises
      `PermissionError` and `RuntimeError` as they are and every other
      exception with its own type, so the class is fixed by the failure. */
  datatype PyException = PermissionError | RuntimeError | FileNotFoundError | FileExistsError | OSError | UnicodeDecodeError

  function RaisedAs(f: ConvertError): PyException {
    match f
    case NoReadAccess(_) => PermissionError
    case NoWriteAccess(_) => PermissionError
    case DimensionsUnavailable(_) => RuntimeError
    case ConvertFailed(_) => RuntimeError
    case StderrUndecodable => UnicodeDecodeError
    case OsFailure(_, err) => OsErrorClass(err)
  }

  /** The `OSError` subclass Python picks for an errno. */
  function OsErrorClass(err: OsError): PyException {
    match err
    case PermissionDenied => PermissionError
    case NoSuchFile => FileNotFoundError
    case AlreadyExists => FileExistsError
    case OtherOsError(_) => OSError
  }

  function ExceptionName(x: PyException): string {
    match x
    case PermissionError => "PermissionError"
    case RuntimeError => "RuntimeError"
    case FileNotFoundError => "FileNotFoundError"
    case FileExistsError => "FileExistsError"
    case OSError => "OSError"
    case UnicodeDecodeError => "UnicodeDecodeError"
  }

  // ---------------------------------------------------------------------------
  // Construction
  // ---------------------------------------------------------------------------

  datatype Engine = Engine(maxSize: int, quality: int, testMode: bool, stats: ConversionStats)

  const NotInstalledMessage: string :=
    "ImageMagick 'convert' and 'identify' commands not found. Please install ImageMagick."

  /** Why the constructor raised: `_check_imagemagick` turns a missing
      executable into `False` and so into the `RuntimeError` with the fixed
      message; any other launch error is not caught and escapes as it is. */
  datatype StartupError = ToolsMissing(message: string) | LaunchRaised(error: OsError)

  /** The error of the first `-version` run that did not launch; `identify`
      is only tried once `convert` launched. */
  function FirstLaunchError(convertVersion: Launch, identifyVersion: Launch): (r: Option<OsError>)
    ensures r.None? <==> convertVersion.Ran? && identifyVersion.Ran?
    ensures convertVersion.LaunchFailed? ==> r == Some(convertVersion.error)
  {
    if convertVersion.LaunchFailed? then Some(convertVersion.error)
    else if identifyVersion.LaunchFailed? then Some(identifyVersion.error)
    else None
  }

  /** `Converter2(max_size, quality, test_mode)`: `convert -version` and then
      `identify -version` must both launch; their exit status is not looked
      at. A missing executable raises the fixed `RuntimeError`, any other
      launch error propagates, and a new engine starts with every counter at
      zero. */
  function New(maxSize: int, quality: int, testMode: bool, convertVersion: Launch, identifyVersion: Launch)
    : (r: Result<Engine, StartupError>)
    ensures r.Success? <==> convertVersion.Ran? && identifyVersion.Ran?
    ensures r.Failure? && r.error.ToolsMissing? ==> r.error.message == NotInstalledMessage
    ensures r.Failure? ==> (r.error.ToolsMissing? <==> FirstLaunchError(convertVersion, identifyVersion) == Some(NoSuchFile))
    ensures r.Failure? && r.error.LaunchRaised? ==> Some(r.error.error) == FirstLaunchError(convertVersion, identifyVersion)
    ensures r.Success? ==> r.value.maxSize == maxSize && r.value.quality == quality
                           && r.value.testMode == testMode && r.value.stats == ConversionStats(0, 0, 0, 0)
  {
    match FirstLaunchError(convertVersion, identifyVersion)
    case None => Success(Engine(maxSize, quality, testMode, Fresh()))
    case Some(err) => if err == NoSuchFile then Failure(ToolsMissing(NotInstalledMessage)) else Failure(LaunchRaised(err))
  }

  // ---------------------------------------------------------------------------
  // Dimension probe
  // ---------------------------------------------------------------------------

  function IdentifyCommand(path: string): seq<string> {
    ["identify", "-format", "%w %h", path]
  }

  /** `width_str, height_str = out.strip().split(); int(width_str), int(height_str)`,
      with `None` for the `ValueError` cases. */
  function ParseDimensions(out: string): (r: Option<(int, int)>)
    ensures r.Some? <==> |Split(out)| == 2 && ParseInt(Split(out)[0]).Some? && ParseInt(Split(out)[1]).Some?
    ensures r.Some? ==> r.value == (ParseInt(Split(out)[0]).value, ParseInt(Split(out)[1]).value)
  {
    var tokens := Split(Strip(out));
    SplitAfterStrip(out);
    if |tokens| != 2 then None
    else
      match (ParseInt(tokens[0]), ParseInt(tokens[1]))
      case (Some(w), Some(h)) => Some((w, h))
      case _ => None
  }

  /** Whatever `identify` prints for a width and a height, padded by any
      whitespace, parses back to that width and height. */
  lemma ParseDimensionsRoundTrip(w: int, h: int, pad: string)
    requires AllSpace(pad)
    ensures ParseDimensions(IntToString(w) + " " + IntToString(h) + pad) == Some((w, h))
  {
    var a := IntToString(w);
    var b := IntToString(h);
    SplitIgnoresTrailingSpace(a + " " + b, pad);
    SplitTwoWords(a, b);
    ParseIntToString(w);
    ParseIntToString(h);
  }

  /** `_get_image_dimensions`: output that does not decode
      (`UnicodeDecodeError`, a `ValueError`), a non-zero exit
      (`CalledProcessError`) or an unreadable output (`ValueError`) becomes
      `RuntimeError`; a launch error
      is not caught there and surfaces as its own `OSError` subclass
      (`FileNotFoundError` for a missing executable, `PermissionError` for one
      that may not be executed). */
  function ProbeDimensions(run: Launch): (r: Result<(int, int), ConvertError>)
    ensures r.Success? <==> run.Ran? && run.decodes && run.exitCode == 0 && ParseDimensions(run.stdout).Some?
    ensures r.Success? ==> r.value == ParseDimensions(run.stdout).value
    ensures r.Failure? && run.Ran? ==> RaisedAs(r.error) == RuntimeError
    ensures run.LaunchFailed? ==> r == Failure(OsFailure(RunIdentify, run.error))
    ensures run.LaunchFailed? ==> RaisedAs(r.error) == OsErrorClass(run.error)
    ensures run.Ran? && !run.decodes ==> r == Failure(DimensionsUnavailable(ProbeUndecodable))
  {
    if run.LaunchFailed? then Failure(OsFailure(RunIdentify, run.error))
    else if !run.decodes then Failure(DimensionsUnavailable(ProbeUndecodable))
    else if run.exitCode != 0 then Failure(DimensionsUnavailable(ProbeExitStatus(run.exitCode)))
    else
      var dims := ParseDimensions(run.stdout);
      if dims.Some? then Success(dims.value) else Failure(DimensionsUnavailable(ProbeUnreadable(run.stdout)))
  }

  /** `max(width, height)`: one of the two, and at least either. */
  function Longest(dims: (int, int)): (m: int)
    ensures m >= dims.0 && m >= dims.1
    ensures m == dims.0 || m == dims.1
  {
    if dims.0 >= dims.1 then dims.0 else dims.1
  }

  // ---------------------------------------------------------------------------
  // The convert command line
  // ---------------------------------------------------------------------------

  /** `file_path.suffix.lower().lstrip(".")`. */
  function Format(path: string): (f: string)
    ensures Suffix(path) != "" ==> f == Lower(Suffix(path))[1..]
    ensures Suffix(path) == "" ==> f == ""
  {
    var sfx := Suffix(path);
    if sfx == "" then LStrip(Lower(sfx), '.')
    else
      LowerKeepsDots(sfx);
      LStripOneDot(Lower(sfx));
      LStrip(Lower(sfx), '.')
  }

  /** Lower-casing leaves a leading dot and a dot-free second character as
      they are. */
  lemma LowerKeepsDots(s: string)
    requires |s| >= 2 && s[0] == '.' && NoChar(s[1..], '.')
    ensures |Lower(s)| >= 2 && Lower(s)[0] == '.' && Lower(s)[1] != '.'
  {
    assert s[1..][0] == s[1];
  }

  lemma LStripOneDot(s: string)
    requires |s| >= 2 && s[0] == '.' && s[1] != '.'
    ensures LStrip(s, '.') == s[1..]
  {
    var t := s[1..];
    assert t[0] == s[1];
    assert LStrip(t, '.') == t;
  }

  /** The bounding box "<m>x<m>>": ImageMagick only ever shrinks to it. */
  function Geometry(maxSize: int): string {
    IntToString(maxSize) + "x" + IntToString(maxSize) + ">"
  }

  /** The options for the output format: JPEG gets the configured quality,
      written so that `int()` reads it back; PNG gets fixed lossless settings
      that ignore the quality; every other format gets none. */
  function FormatOptions(format: string, quality: int): (opts: seq<string>)
    ensures format == "jpg" || format == "jpeg" ==>
              |opts| == 2 && opts[0] == "-quality" && ParseInt(opts[1]) == Some(quality)
    ensures format == "png" ==>
              |opts| == 6 && opts[..2] == ["-quality", "100"] && opts[4..] == ["-interlace", "PNG"]
    ensures format != "jpg" && format != "jpeg" && format != "png" ==> opts == []
  {
    ParseIntToString(quality);
    if format == "jpg" || format == "jpeg" then ["-quality", IntToString(quality)]
    else if format == "png" then ["-quality", "100", "-define", "png:compression-level=9", "-interlace", "PNG"]
    else []
  }

  /** The PNG options are the same whatever quality is configured. */
  lemma PngIgnoresQuality(q1: int, q2: int)
    ensures FormatOptions("png", q1) == FormatOptions("png", q2)
  {
  }

  function ConvertCommand(src: string, dst: string, format: string, maxSize: int, quality: int)
    : (cmd: seq<string>)
    ensures |cmd| >= 5
    ensures cmd[..4] == ["convert", src, "-resize", Geometry(maxSize)]
    ensures cmd[|cmd| - 1] == dst
    ensures cmd[4..|cmd| - 1] == FormatOptions(format, quality)
  {
    ["convert", src, "-resize", Geometry(maxSize)] + FormatOptions(format, quality) + [dst]
  }

  /** The format options by suffix: JPEG gets exactly the configured quality
      (which reads back from the argument), PNG the fixed maximum-compression
      set, every other format nothing. */
  lemma ConvertCommandByFormat(src: string, dst: string, format: string, maxSize: int, quality: int)
    ensures var cmd := ConvertCommand(src, dst, format, maxSize, quality);
            && ((format == "jpg" || format == "jpeg") ==>
                  (|cmd| == 7 && cmd[4] == "-quality" && ParseInt(cmd[5]) == Some(quality)))
            && (format == "png" ==>
                  (|cmd| == 11 && cmd[4..10] == ["-quality", "100", "-define", "png:compression-level=9", "-interlace", "PNG"]))
            && (format != "jpg" && format != "jpeg" && format != "png" ==> |cmd| == 5)
  {
    ParseIntToString(quality);
  }

  /** The format is the lower-cased extension without its dot, whatever the
      directory and stem. */
  lemma FormatOfJoin(d: string, stem: string, ext: string)
    requires |d| == 0 || d[|d| - 1] == '/'
    requires |stem| > 0 && NoChar(stem, '/')
    requires |ext| >= 2 && ext[0] == '.' && NoChar(ext[1..], '.') && NoChar(ext, '/')
    ensures Format(d + stem + ext) == Lower(ext)[1..]
  {
    SuffixOfJoin(d, stem, ext);
  }

  /** Upper-case suffixes select the same options: `photo.JPG` is encoded as
      a JPEG. */
  lemma FormatIgnoresCase(d: string, stem: string)
    requires |d| == 0 || d[|d| - 1] == '/'
    requires |stem| > 0 && NoChar(stem, '/')
    ensures Format(d + stem + ".JPG") == "jpg"
  {
    JpgExtension();
    FormatOfJoin(d, stem, ".JPG");
  }

  lemma JpgExtension()
    ensures NoChar(".JPG"[1..], '.') && NoChar(".JPG", '/')
    ensures Lower(".JPG")[1..] == "jpg"
  {
    var low := Lower(".JPG");
    assert low[1] == 'j' && low[2] == 'p' && low[3] == 'g';
  }

  // ---------------------------------------------------------------------------
  // convert(image_info)
  // ---------------------------------------------------------------------------

  /** The state after one call: files, engine (with its statistics), the
      external commands issued in order, and the return value or failure. */
  datatype Outcome = Outcome(
    fs: FileSystem,
    engine: Engine,
    commands: seq<seq<string>>,
    result: Result<bool, ConvertError>
  )

  /** `if tmp_path.exists(): tmp_path.unlink()`. */
  function Cleanup(fs: FileSystem, tmp: string): (r: FileSystem)
    ensures tmp !in r
    ensures forall p :: p in fs && p != tmp ==> p in r && r[p] == fs[p]
    ensures r.Keys == fs.Keys - {tmp}
  {
    if tmp in fs then fs - {tmp} else fs
  }

  lemma CleanupUndoesCreate(fs: FileSystem, tmp: string, rec: FileRecord)
    requires tmp !in fs
    ensures Cleanup(fs[tmp := rec], tmp) == fs
  {
    assert Cleanup(fs[tmp := rec], tmp).Keys == fs.Keys;
  }

  /** True when the original file may already have been replaced: the failure
      happened after the move. */
  predicate AfterMove(f: ConvertError) {
    f.OsFailure? && (f.op == CopyMetadata || f.op == RestoreMode || f.op == RestoreOwner)
  }

  /** The move put the new bytes under the target's name. */
  predicate Moved(m: MoveRun) {
    m.Renamed? || m.CopiedOver? || m.CopyStatFailed?
  }

  /** The non-test tail of the protocol, once `convert` has written the
      temporary file: move it over the original, restore the mode, try to
      restore the owner, then record the sizes. */
  function Replace(e: Engine, fs: FileSystem, written: FileSystem, tmp: string,
                   info: ImageFileInfo, o: Oracle, cmds: seq<seq<string>>): (r: Outcome)
    requires info.path in fs && tmp !in fs && tmp != info.path
    requires tmp in written && written == fs[tmp := written[tmp]]
    requires o.convert.ConvertRan? && written[tmp].size == o.convert.size
    requires written[tmp].content == o.convert.content
    requires written[tmp].mode == TempMode && written[tmp].uid == o.euid && written[tmp].gid == o.egid
    ensures r.fs.Keys == fs.Keys
    ensures forall p :: p in fs && p != info.path ==> r.fs[p] == fs[p]
    ensures r.commands == cmds
    ensures r.result.Failure? ==> r.engine == e
    ensures r.result.Failure? && !AfterMove(r.result.error) ==> r.fs == fs
    ensures r.result.Failure? && AfterMove(r.result.error) ==> Moved(o.move)
    ensures o.move.CopyRefused? ==> r.result == Failure(OsFailure(MoveIntoPlace, o.move.error))
    ensures r.result.Success? ==> r.result.value
    ensures r.result.Success? ==> r.engine == e.(stats := AddProcessed(e.stats, info.size, o.convert.size))
    ensures r.result.Success? <==>
              (o.move.Renamed? || o.move.CopiedOver?) && o.chmod.Done?
              && (o.chown.Done? || o.chown == Fails(PermissionDenied))
    // the new bytes are under the target's name whenever the move got that far
    ensures Moved(o.move) ==>
              r.fs[info.path].content == o.convert.content && r.fs[info.path].size == o.convert.size
    ensures r.result.Success? ==> r.fs[info.path].mode == info.permissions
    ensures r.result.Success? && o.chown.Done? ==>
              r.fs[info.path].uid == info.uid && r.fs[info.path].gid == info.gid
    // a refused chown leaves whoever owns the file now: this process after a
    // rename, the original owner after a copy
    ensures r.result.Success? && o.chown == Fails(PermissionDenied) && o.move.Renamed? ==>
              r.fs[info.path].uid == o.euid && r.fs[info.path].gid == o.egid
    ensures r.result.Success? && o.chown == Fails(PermissionDenied) && o.move.CopiedOver? ==>
              r.fs[info.path].uid == fs[info.path].uid && r.fs[info.path].gid == fs[info.path].gid
    ensures r.result.Failure? && r.result.error.OsFailure? && r.result.error.op == RestoreMode ==>
              r.fs[info.path].mode == TempMode
    ensures o.move.CopyStatFailed? ==>
              r.result == Failure(OsFailure(CopyMetadata, o.move.error))
              && r.fs[info.path].mode == fs[info.path].mode
              && r.fs[info.path].uid == fs[info.path].uid && r.fs[info.path].gid == fs[info.path].gid
  {
    var path := info.path;
    var processed := e.(stats := AddProcessed(e.stats, info.size, written[tmp].size));
    var rest := written - {tmp};
    assert rest == fs - {tmp};
    if o.move.CopyRefused? then
      CleanupUndoesCreate(fs, tmp, written[tmp]);
      Outcome(Cleanup(written, tmp), e, cmds, Failure(OsFailure(MoveIntoPlace, o.move.error)))
    else if o.move.CopyStatFailed? then
      // the bytes are already rewritten; the handler unlinks the temporary file
      var rewritten := rest[path := fs[path].(content := written[tmp].content, size := written[tmp].size)];
      assert rewritten.Keys == fs.Keys;
      Outcome(rewritten, e, cmds, Failure(OsFailure(CopyMetadata, o.move.error)))
    else
      var moved :=
        if o.move.Renamed? then rest[path := written[tmp]]
        else rest[path := fs[path].(content := written[tmp].content, size := written[tmp].size, mode := TempMode)];
      assert moved.Keys == fs.Keys;
      match o.chmod
      case Fails(err) => Outcome(moved, e, cmds, Failure(OsFailure(RestoreMode, err)))
      case Done =>
        var chmodded := moved[path := moved[path].(mode := info.permissions)];
        match o.chown
        case Done =>
          Outcome(chmodded[path := chmodded[path].(uid := info.uid, gid := info.gid)], processed, cmds, Success(true))
        case Fails(err) =>
          if err == PermissionDenied then Outcome(chmodded, processed, cmds, Success(true))
          else Outcome(chmodded, e, cmds, Failure(OsFailure(RestoreOwner, err)))
  }

  /** What every stage of `convert` guarantees about its outcome `r`: only
      the target may change and the temporary file never remains; test mode
      and every failure before the move leave the disk alone; a failure
      leaves the statistics alone; a failure after the move, and a success,
      leave the converted bytes in place; the owner is restored when `chown`
      succeeds, and otherwise is whoever owns the file after the move. */
  predicate Settled(e: Engine, fs: FileSystem, info: ImageFileInfo, o: Oracle, r: Outcome)
    requires info.path in fs
  {
    && r.fs.Keys == fs.Keys
    && (forall p :: p in fs && p != info.path ==> r.fs[p] == fs[p])
    && (e.testMode ==> r.fs == fs)
    && r.engine.maxSize == e.maxSize && r.engine.quality == e.quality && r.engine.testMode == e.testMode
    && (r.result.Failure? ==> r.engine == e)
    && (r.result.Failure? && !AfterMove(r.result.error) ==> r.fs == fs)
    && (r.result.Failure? && r.result.error.ConvertFailed? ==>
           o.convert.ConvertRan? && o.convert.exitCode != 0 && o.convert.stderrDecodes
           && r.result.error.stderr == o.convert.stderr)
    && (r.result.Failure? && r.result.error.StderrUndecodable? ==>
           o.convert.ConvertRan? && o.convert.exitCode != 0 && !o.convert.stderrDecodes)
    && (r.result.Failure? && AfterMove(r.result.error) ==>
           !e.testMode && o.convert.ConvertRan? && Moved(o.move)
           && r.fs[info.path].content == o.convert.content && r.fs[info.path].size == o.convert.size)
    && (r.result == Success(true) && !e.testMode ==>
           o.convert.ConvertRan? && r.fs[info.path].content == o.convert.content && r.fs[info.path].size == o.convert.size
           && r.fs[info.path].mode == info.permissions)
    && (r.result == Success(true) && !e.testMode && o.chown.Done? ==>
           r.fs[info.path].uid == info.uid && r.fs[info.path].gid == info.gid)
    && (r.result == Success(true) && !e.testMode && o.chown == Fails(PermissionDenied) && o.move.Renamed? ==>
           r.fs[info.path].uid == o.euid && r.fs[info.path].gid == o.egid)
    && (r.result == Success(true) && !e.testMode && o.chown == Fails(PermissionDenied) && o.move.CopiedOver? ==>
           r.fs[info.path].uid == fs[info.path].uid && r.fs[info.path].gid == fs[info.path].gid)
  }

  /** The names `mkstemp(suffix=..., dir=...)` tries for `path`, one per draw. */
  function Candidates(path: string, tokens: seq<TempToken>): (names: seq<string>)
    ensures |names| == |tokens|
    ensures forall i :: 0 <= i < |tokens| ==> names[i] == TempPath(path, tokens[i])
  {
    seq(|tokens|, i requires 0 <= i < |tokens| => TempPath(path, tokens[i]))
  }

  /** `mkstemp`'s name search: it opens each drawn name with `O_EXCL`, moving
      on to the next draw when the name is taken, so it uses the first free
      name; `None` when every draw is taken. */
  function FirstFree(fs: FileSystem, names: seq<string>): (r: Option<string>)
    ensures r.None? <==> forall i :: 0 <= i < |names| ==> names[i] in fs
    ensures r.Some? ==> r.value !in fs
    ensures r.Some? ==> exists i :: 0 <= i < |names| && r.value == names[i]
                                     && forall j :: 0 <= j < i ==> names[j] in fs
  {
    if |names| == 0 then None
    else if names[0] !in fs then Some(names[0])
    else
      var r := FirstFree(fs, names[1..]);
      assert forall i :: 0 < i < |names| ==> names[1..][i - 1] == names[i];
      r
  }

  function PickTemp(fs: FileSystem, path: string, tokens: seq<TempToken>): Option<string> {
    FirstFree(fs, Candidates(path, tokens))
  }

  /** Everything after the decision to resize: create the temporary file
      `tmp` (a free name), run `convert` (command line `cmd`) into it, then
      finish in test mode or replace. */
  function Transform(e: Engine, fs: FileSystem, info: ImageFileInfo, o: Oracle,
                     tmp: string, cmd: seq<string>): (r: Outcome)
    requires info.path in fs && tmp !in fs
    ensures Settled(e, fs, info, o, r)
    ensures r.result.Success? ==> r.result.value && o.convert.ConvertRan? && o.convert.exitCode == 0
    ensures r.result.Success? ==> r.engine == e.(stats := AddProcessed(e.stats, info.size, o.convert.size))
    ensures r.commands == [IdentifyCommand(info.path)] || r.commands == [IdentifyCommand(info.path), cmd]
    ensures r.result.Success? ==> r.commands == [IdentifyCommand(info.path), cmd]
    ensures o.createTemp.Fails? ==> r.result == Failure(OsFailure(CreateTemp, o.createTemp.error))
    ensures r.commands == [IdentifyCommand(info.path), cmd] <==> o.createTemp.Done?
    // the copy fallback's failure: new bytes, everything else as before
    ensures !e.testMode && o.createTemp.Done? && o.convert.ConvertRan? && o.convert.exitCode == 0
            && o.move.CopyStatFailed? ==>
              r.result == Failure(OsFailure(CopyMetadata, o.move.error))
              && r.fs[info.path] == fs[info.path].(content := o.convert.content, size := o.convert.size)
  {
    var path := info.path;
    var probed := [IdentifyCommand(path)];
    if o.createTemp.Fails? then
      Outcome(fs, e, probed, Failure(OsFailure(CreateTemp, o.createTemp.error)))
    else
      var created := fs[tmp := FileRecord(EmptyContent, TempMode, o.euid, o.egid, 0)];
      var cmds := probed + [cmd];
      CleanupUndoesCreate(fs, tmp, created[tmp]);
      match o.convert
      case ConvertNotLaunched(err) =>
        Outcome(Cleanup(created, tmp), e, cmds, Failure(OsFailure(RunConvert, err)))
      case ConvertRan(code, stderr, decodes, content, size) =>
        if code != 0 then
          // the temporary file is unlinked before the message is built
          Outcome(Cleanup(created, tmp), e, cmds, Failure(if decodes then ConvertFailed(stderr) else StderrUndecodable))
        else
          var written := created[tmp := created[tmp].(content := content, size := size)];
          assert written == fs[tmp := written[tmp]];
          CleanupUndoesCreate(fs, tmp, written[tmp]);
          if e.testMode then
            // size_after is read from the temporary file before it is unlinked
            Outcome(Cleanup(written, tmp), e.(stats := AddProcessed(e.stats, info.size, written[tmp].size)),
                    cmds, Success(true))
          else
            Replace(e, fs, written, tmp, info, o, cmds)
  }

  /** The image is too large: transform it into the free temporary name
      `pick` that `mkstemp` found beside it, or raise `FileExistsError` when
      it found none. */
  function Shrink(e: Engine, fs: FileSystem, info: ImageFileInfo, o: Oracle, pick: Option<string>): (r: Outcome)
    requires info.path in fs && (pick.Some? ==> pick.value !in fs)
    ensures Settled(e, fs, info, o, r)
    ensures r.result.Success? ==>
              r.result.value && o.convert.ConvertRan? && o.convert.exitCode == 0
              && r.engine.stats == AddProcessed(e.stats, info.size, o.convert.size)
    ensures pick.None? ==>
              r == Outcome(fs, e, [IdentifyCommand(info.path)], Failure(OsFailure(CreateTemp, AlreadyExists)))
    ensures pick.Some? ==>
              r == Transform(e, fs, info, o, pick.value,
                             ConvertCommand(info.path, pick.value, Format(info.path), e.maxSize, e.quality))
  {
    var path := info.path;
    match pick
    case None => Outcome(fs, e, [IdentifyCommand(path)], Failure(OsFailure(CreateTemp, AlreadyExists)))
    case Some(tmp) =>
      Transform(e, fs, info, o, tmp, ConvertCommand(path, tmp, Format(path), e.maxSize, e.quality))
  }

  /** What happens once both access checks have passed: probe the
      dimensions, skip an image that already fits, otherwise shrink it. */
  function Resize(e: Engine, fs: FileSystem, info: ImageFileInfo, o: Oracle): (r: Outcome)
    requires info.path in fs
    ensures Settled(e, fs, info, o, r)
    ensures r.result == Success(true) ==>
              o.convert.ConvertRan? && o.convert.exitCode == 0
              && r.engine.stats == AddProcessed(e.stats, info.size, o.convert.size)
    ensures r.result == Success(false) <==>
              ProbeDimensions(o.identify).Success? && Longest(ProbeDimensions(o.identify).value) <= e.maxSize
    ensures r.result == Success(false) ==> r == Outcome(fs, e.(stats := AddSkipped(e.stats)), [IdentifyCommand(info.path)], Success(false))
    ensures ProbeDimensions(o.identify).Failure? ==>
              r == Outcome(fs, e, [IdentifyCommand(info.path)], Failure(ProbeDimensions(o.identify).error))
    ensures ProbeDimensions(o.identify).Success? && Longest(ProbeDimensions(o.identify).value) > e.maxSize ==>
              r == Shrink(e, fs, info, o, PickTemp(fs, info.path, o.tokens))
  {
    var path := info.path;
    match ProbeDimensions(o.identify)
    case Failure(f) => Outcome(fs, e, [IdentifyCommand(path)], Failure(f))
    case Success(dims) =>
      if Longest(dims) <= e.maxSize then
        Outcome(fs, e.(stats := AddSkipped(e.stats)), [IdentifyCommand(path)], Success(false))
      else Shrink(e, fs, info, o, PickTemp(fs, path, o.tokens))
  }

  /** `Converter2.convert(image_info)`. */
  function Convert(e: Engine, fs: FileSystem, info: ImageFileInfo, o: Oracle): (r: Outcome)
    // access: read is checked first, then write; a failure touches nothing
    ensures !(info.path in fs && o.readable) ==> r == Outcome(fs, e, [], Failure(NoReadAccess(info.path)))
    ensures info.path in fs && o.readable && !o.writable ==>
              r == Outcome(fs, e, [], Failure(NoWriteAccess(info.path)))
    ensures info.path in fs && o.readable && o.writable ==> r == Resize(e, fs, info, o)
    // only the target may change, and the temporary file never remains
    ensures r.fs.Keys == fs.Keys
    ensures forall p :: p in fs && p != info.path ==> r.fs[p] == fs[p]
    // test mode never changes the filesystem
    ensures e.testMode ==> r.fs == fs
    // configuration is immutable; a failure leaves the statistics alone
    ensures r.engine.maxSize == e.maxSize && r.engine.quality == e.quality && r.engine.testMode == e.testMode
    ensures r.result.Failure? ==> r.engine == e
    ensures r.result.Failure? && !AfterMove(r.result.error) ==> r.fs == fs
    // skip decision
    ensures r.result == Success(false) <==>
              info.path in fs && o.readable && o.writable
              && ProbeDimensions(o.identify).Success?
              && Longest(ProbeDimensions(o.identify).value) <= e.maxSize
    // the access checks raise PermissionError, the tools RuntimeError, and
    // convert's stderr that is not UTF-8 the UnicodeDecodeError of decoding it
    ensures r.result.Failure? && !r.result.error.OsFailure? ==>
              RaisedAs(r.result.error) == (if r.result.error.NoReadAccess? || r.result.error.NoWriteAccess?
                                           then PermissionError
                                           else if r.result.error.StderrUndecodable? then UnicodeDecodeError
                                           else RuntimeError)
    // every successful call bumps exactly one counter; "before" is the
    // recorded size, "after" the size of the converted file
    ensures r.result.Success? ==> Total(r.engine.stats) == Total(e.stats) + 1
    ensures r.result == Success(true) ==>
              o.convert.ConvertRan? && r.engine.stats == AddProcessed(e.stats, info.size, o.convert.size)
    // a real run puts the converted bytes in place with the recorded mode
    ensures r.result == Success(true) && !e.testMode ==>
              o.convert.ConvertRan? && r.fs[info.path].content == o.convert.content && r.fs[info.path].size == o.convert.size
              && r.fs[info.path].mode == info.permissions
    // a failure after the move leaves the original already replaced
    ensures r.result.Failure? && AfterMove(r.result.error) ==>
              !e.testMode && o.convert.ConvertRan? && Moved(o.move)
              && r.fs[info.path].content == o.convert.content && r.fs[info.path].size == o.convert.size
  {
    var path := info.path;
    var r :=
      if !(path in fs && o.readable) then
        Outcome(fs, e, [], Failure(NoReadAccess(path)))
      else if !o.writable then
        Outcome(fs, e, [], Failure(NoWriteAccess(path)))
      else
        Resize(e, fs, info, o);
    if r.result.Failure? then ClassOfNonOsFailure(r.result.error); r else r
  }

  lemma ClassOfNonOsFailure(f: ConvertError)
    ensures !f.OsFailure? ==>
              RaisedAs(f) == (if f.NoReadAccess? || f.NoWriteAccess? then PermissionError
                              else if f.StderrUndecodable? then UnicodeDecodeError
                              else RuntimeError)
  {
  }

  /** The external commands a call issues, in order: none when an access
      check fails; otherwise `identify` first and then, for an image that is
      too large and once the temporary file exists, the `convert` line that
      writes into the free name `mkstemp` picked. */
  lemma CommandsInOrder(e: Engine, fs: FileSystem, info: ImageFileInfo, o: Oracle)
    ensures var r := Convert(e, fs, info, o);
            !(info.path in fs && o.readable && o.writable) ==> r.commands == []
    ensures var r := Convert(e, fs, info, o);
            info.path in fs && o.readable && o.writable ==>
              && 1 <= |r.commands| <= 2
              && r.commands[0] == IdentifyCommand(info.path)
              && (|r.commands| == 2 <==>
                    ProbeDimensions(o.identify).Success? && Longest(ProbeDimensions(o.identify).value) > e.maxSize
                    && PickTemp(fs, info.path, o.tokens).Some? && o.createTemp.Done?)
              && (|r.commands| == 2 ==>
                    r.commands[1] == ConvertCommand(info.path, PickTemp(fs, info.path, o.tokens).value,
                                                    Format(info.path), e.maxSize, e.quality))
    ensures var r := Convert(e, fs, info, o);
            r.result == Success(true) ==> |r.commands| == 2
  {
    var path := info.path;
    var r := Convert(e, fs, info, o);
    if path in fs && o.readable && o.writable {
      assert r == Resize(e, fs, info, o);
      var probe := ProbeDimensions(o.identify);
      if probe.Failure? {
        assert r.commands == [IdentifyCommand(path)];
      } else if Longest(probe.value) <= e.maxSize {
        assert r.commands == [IdentifyCommand(path)];
      } else {
        var pick := PickTemp(fs, path, o.tokens);
        assert r == Shrink(e, fs, info, o, pick);
        if pick.Some? {
          var cmd := ConvertCommand(path, pick.value, Format(path), e.maxSize, e.quality);
          assert r == Transform(e, fs, info, o, pick.value, cmd);
        }
      }
    }
  }

  /** `shutil.move`'s copy fallback is not atomic: when the rename is refused,
      the target is rewritten in place and setting its times then raises,
      the call raises `PermissionError` with the original already holding
      the new bytes, its old mode and owner, and the statistics untouched. */
  lemma CopyFallbackIsNotAtomic(e: Engine, fs: FileSystem, info: ImageFileInfo, o: Oracle)
    requires info.path in fs && o.readable && o.writable && !e.testMode
    requires ProbeDimensions(o.identify).Success? && Longest(ProbeDimensions(o.identify).value) > e.maxSize
    requires PickTemp(fs, info.path, o.tokens).Some? && o.createTemp.Done?
    requires o.convert.ConvertRan? && o.convert.exitCode == 0
    requires o.move == CopyStatFailed(PermissionDenied)
    ensures var r := Convert(e, fs, info, o);
            && r.result.Failure? && RaisedAs(r.result.error) == PermissionError
            && r.engine == e && r.fs.Keys == fs.Keys
            && r.fs[info.path] == fs[info.path].(content := o.convert.content, size := o.convert.size)
  {
    var path := info.path;
    var tmp := PickTemp(fs, path, o.tokens).value;
    var cmd := ConvertCommand(path, tmp, Format(path), e.maxSize, e.quality);
    var r := Convert(e, fs, info, o);
    assert r == Resize(e, fs, info, o);
    assert r == Shrink(e, fs, info, o, PickTemp(fs, path, o.tokens));
    assert r == Transform(e, fs, info, o, tmp, cmd);
    assert r.result == Failure(OsFailure(CopyMetadata, PermissionDenied));
    DeniedIsPermissionError(CopyMetadata);
  }

  /** `convert` failed and its stderr is not UTF-8: the `.decode()` that
      builds the `RuntimeError` message raises `UnicodeDecodeError` instead,
      after the temporary file is gone, and the outer handler re-raises it
      with its own class. Nothing on disk or in the statistics changes. */
  lemma UndecodableStderrEscapes(e: Engine, fs: FileSystem, info: ImageFileInfo, o: Oracle)
    requires info.path in fs && o.readable && o.writable
    requires ProbeDimensions(o.identify).Success? && Longest(ProbeDimensions(o.identify).value) > e.maxSize
    requires PickTemp(fs, info.path, o.tokens).Some? && o.createTemp.Done?
    requires o.convert.ConvertRan? && o.convert.exitCode != 0 && !o.convert.stderrDecodes
    ensures var r := Convert(e, fs, info, o);
            && r.result == Failure(StderrUndecodable) && RaisedAs(r.result.error) == UnicodeDecodeError
            && r.fs == fs && r.engine == e
  {
    var path := info.path;
    var tmp := PickTemp(fs, path, o.tokens).value;
    var cmd := ConvertCommand(path, tmp, Format(path), e.maxSize, e.quality);
    ConvertIsResize(e, fs, info, o);
    ResizeIsTransform(e, fs, info, o, tmp, cmd);
    TransformUndecodable(e, fs, info, o, tmp, cmd);
    UndecodableIsUnicodeError();
  }

  lemma UndecodableIsUnicodeError()
    ensures RaisedAs(StderrUndecodable) == UnicodeDecodeError
  {
  }

  lemma ConvertIsResize(e: Engine, fs: FileSystem, info: ImageFileInfo, o: Oracle)
    requires info.path in fs && o.readable && o.writable
    ensures Convert(e, fs, info, o) == Resize(e, fs, info, o)
  {
  }

  lemma TransformUndecodable(e: Engine, fs: FileSystem, info: ImageFileInfo, o: Oracle, tmp: string, cmd: seq<string>)
    requires info.path in fs && tmp !in fs && o.createTemp.Done?
    requires o.convert.ConvertRan? && o.convert.exitCode != 0 && !o.convert.stderrDecodes
    ensures var r := Transform(e, fs, info, o, tmp, cmd);
            r.result == Failure(StderrUndecodable) && r.fs == fs && r.engine == e
  {
    var created := fs[tmp := FileRecord(EmptyContent, TempMode, o.euid, o.egid, 0)];
    CleanupUndoesCreate(fs, tmp, created[tmp]);
  }

  lemma DeniedIsPermissionError(op: OsOp)
    ensures RaisedAs(OsFailure(op, PermissionDenied)) == PermissionError
  {
  }

  /** `Transform` never looks at the names `mkstemp` drew: it is handed the
      one that was picked. */
  lemma TransformIgnoresTokens(e: Engine, fs: FileSystem, info: ImageFileInfo, o: Oracle,
                               tmp: string, cmd: seq<string>, tokens: seq<TempToken>)
    requires info.path in fs && tmp !in fs
    ensures Transform(e, fs, info, o.(tokens := tokens), tmp, cmd) == Transform(e, fs, info, o, tmp, cmd)
  {
  }

  /** A temporary name that is already taken does not fail the call:
      `mkstemp` moves on to its next draw, so the outcome is the one the
      remaining draws give. */
  lemma TakenNameIsSkipped(e: Engine, fs: FileSystem, info: ImageFileInfo, o: Oracle)
    requires |o.tokens| > 0 && TempPath(info.path, o.tokens[0]) in fs
    ensures Convert(e, fs, info, o) == Convert(e, fs, info, o.(tokens := o.tokens[1..]))
  {
    var o' := o.(tokens := o.tokens[1..]);
    if info.path in fs && o.readable && o.writable {
      ResizeSkipsTakenName(e, fs, info, o);
    }
  }

  lemma ResizeSkipsTakenName(e: Engine, fs: FileSystem, info: ImageFileInfo, o: Oracle)
    requires info.path in fs
    requires |o.tokens| > 0 && TempPath(info.path, o.tokens[0]) in fs
    ensures Resize(e, fs, info, o) == Resize(e, fs, info, o.(tokens := o.tokens[1..]))
  {
    PickTempSkipsTaken(fs, info.path, o.tokens);
    ResizeDependsOnlyOnPick(e, fs, info, o, o.tokens[1..]);
  }

  /** The drawn names matter to `Resize` only through the one picked. */
  lemma ResizeDependsOnlyOnPick(e: Engine, fs: FileSystem, info: ImageFileInfo, o: Oracle, tokens: seq<TempToken>)
    requires info.path in fs
    requires PickTemp(fs, info.path, tokens) == PickTemp(fs, info.path, o.tokens)
    ensures Resize(e, fs, info, o.(tokens := tokens)) == Resize(e, fs, info, o)
  {
    var probe := ProbeDimensions(o.identify);
    if probe.Success? && Longest(probe.value) > e.maxSize {
      var pick := PickTemp(fs, info.path, o.tokens);
      assert Resize(e, fs, info, o.(tokens := tokens)) == Shrink(e, fs, info, o.(tokens := tokens), pick) by {
        assert o.(tokens := tokens).identify == o.identify;
      }
      ShrinkIgnoresTokens(e, fs, info, o, pick, tokens);
    } else {
      NoShrinkIgnoresTokens(e, fs, info, o, tokens);
    }
  }

  /** Without a resize the temporary name is never drawn. */
  lemma NoShrinkIgnoresTokens(e: Engine, fs: FileSystem, info: ImageFileInfo, o: Oracle, tokens: seq<TempToken>)
    requires info.path in fs
    requires !(ProbeDimensions(o.identify).Success? && Longest(ProbeDimensions(o.identify).value) > e.maxSize)
    ensures Resize(e, fs, info, o.(tokens := tokens)) == Resize(e, fs, info, o)
  {
    assert o.(tokens := tokens).identify == o.identify;
  }

  lemma PickTempSkipsTaken(fs: FileSystem, path: string, tokens: seq<TempToken>)
    requires |tokens| > 0 && TempPath(path, tokens[0]) in fs
    ensures PickTemp(fs, path, tokens) == PickTemp(fs, path, tokens[1..])
  {
    var names := Candidates(path, tokens);
    assert names[0] in fs;
    CandidatesTail(path, tokens);
    FirstFreeSkipsTaken(fs, names);
  }

  lemma CandidatesTail(path: string, tokens: seq<TempToken>)
    requires |tokens| > 0
    ensures Candidates(path, tokens)[1..] == Candidates(path, tokens[1..])
  {
    var names := Candidates(path, tokens);
    var rest := Candidates(path, tokens[1..]);
    forall i | 0 <= i < |rest| ensures names[1..][i] == rest[i] {
      assert tokens[1..][i] == tokens[i + 1];
    }
  }

  lemma FirstFreeSkipsTaken(fs: FileSystem, names: seq<string>)
    requires |names| > 0 && names[0] in fs
    ensures FirstFree(fs, names) == FirstFree(fs, names[1..])
  {
  }

  lemma ShrinkIgnoresTokens(e: Engine, fs: FileSystem, info: ImageFileInfo, o: Oracle,
                            pick: Option<string>, tokens: seq<TempToken>)
    requires info.path in fs && (pick.Some? ==> pick.value !in fs)
    ensures Shrink(e, fs, info, o.(tokens := tokens), pick) == Shrink(e, fs, info, o, pick)
  {
    if pick.Some? {
      var path := info.path;
      TransformIgnoresTokens(e, fs, info, o, pick.value, ConvertCommand(path, pick.value, Format(path), e.maxSize, e.quality), tokens);
    }
  }

  lemma TransformTestMode(e: Engine, fs: FileSystem, info: ImageFileInfo, o: Oracle, tmp: string, cmd: seq<string>)
    requires info.path in fs && tmp !in fs
    requires Transform(e.(testMode := false), fs, info, o, tmp, cmd).result.Success?
    ensures Transform(e.(testMode := true), fs, info, o, tmp, cmd).result
         == Transform(e.(testMode := false), fs, info, o, tmp, cmd).result
    ensures Transform(e.(testMode := true), fs, info, o, tmp, cmd).engine.stats
         == Transform(e.(testMode := false), fs, info, o, tmp, cmd).engine.stats
  {
    var onDisk := Transform(e.(testMode := false), fs, info, o, tmp, cmd);
    assert o.createTemp.Done?;
  }

  /** Test mode returns what a real run returns and records the same sizes,
      whenever the real run succeeds; it only differs in leaving the disk
      alone. */
  lemma TestModeRecordsSameStatistics(e: Engine, fs: FileSystem, info: ImageFileInfo, o: Oracle)
    ensures var onDisk := Convert(e.(testMode := false), fs, info, o);
            var dryRun := Convert(e.(testMode := true), fs, info, o);
            onDisk.result.Success? ==>
              dryRun.result == onDisk.result && dryRun.engine.stats == onDisk.engine.stats && dryRun.fs == fs
  {
    if Convert(e.(testMode := false), fs, info, o).result.Success? {
      TestModeAgrees(e, fs, info, o);
    }
  }

  lemma TestModeAgrees(e: Engine, fs: FileSystem, info: ImageFileInfo, o: Oracle)
    requires Convert(e.(testMode := false), fs, info, o).result.Success?
    ensures Convert(e.(testMode := true), fs, info, o).result == Convert(e.(testMode := false), fs, info, o).result
    ensures Convert(e.(testMode := true), fs, info, o).engine.stats
         == Convert(e.(testMode := false), fs, info, o).engine.stats
    ensures Convert(e.(testMode := true), fs, info, o).fs == fs
  {
    assert info.path in fs && o.readable && o.writable;
    assert Convert(e.(testMode := false), fs, info, o) == Resize(e.(testMode := false), fs, info, o);
    assert Convert(e.(testMode := true), fs, info, o) == Resize(e.(testMode := true), fs, info, o);
    ResizeTestModeAgrees(e, fs, info, o);
  }

  lemma ResizeTestModeAgrees(e: Engine, fs: FileSystem, info: ImageFileInfo, o: Oracle)
    requires info.path in fs
    requires Resize(e.(testMode := false), fs, info, o).result.Success?
    ensures Resize(e.(testMode := true), fs, info, o).result == Resize(e.(testMode := false), fs, info, o).result
    ensures Resize(e.(testMode := true), fs, info, o).engine.stats
         == Resize(e.(testMode := false), fs, info, o).engine.stats
    ensures Resize(e.(testMode := true), fs, info, o).fs == fs
  {
    var probe := ProbeDimensions(o.identify);
    if probe.Success? && Longest(probe.value) > e.maxSize {
      var tmp := PickTemp(fs, info.path, o.tokens).value;
      var cmd := ConvertCommand(info.path, tmp, Format(info.path), e.maxSize, e.quality);
      ResizeIsTransform(e.(testMode := false), fs, info, o, tmp, cmd);
      ResizeIsTransform(e.(testMode := true), fs, info, o, tmp, cmd);
      TransformTestMode(e, fs, info, o, tmp, cmd);
    }
  }

  /** Past the size check and with a free name drawn, `Resize` is `Transform`. */
  lemma ResizeIsTransform(e: Engine, fs: FileSystem, info: ImageFileInfo, o: Oracle, tmp: string, cmd: seq<string>)
    requires info.path in fs
    requires ProbeDimensions(o.identify).Success? && Longest(ProbeDimensions(o.identify).value) > e.maxSize
    requires PickTemp(fs, info.path, o.tokens) == Some(tmp)
    requires cmd == ConvertCommand(info.path, tmp, Format(info.path), e.maxSize, e.quality)
    ensures tmp !in fs && Resize(e, fs, info, o) == Transform(e, fs, info, o, tmp, cmd)
  {
    PickedIsFree(fs, info.path, o.tokens, tmp);
    ResizeIsShrink(e, fs, info, o, Some(tmp));
    ShrinkIsTransform(e, fs, info, o, tmp, cmd);
  }

  lemma PickedIsFree(fs: FileSystem, path: string, tokens: seq<TempToken>, tmp: string)
    requires PickTemp(fs, path, tokens) == Some(tmp)
    ensures tmp !in fs
  {
  }

  lemma ResizeIsShrink(e: Engine, fs: FileSystem, info: ImageFileInfo, o: Oracle, pick: Option<string>)
    requires info.path in fs
    requires ProbeDimensions(o.identify).Success? && Longest(ProbeDimensions(o.identify).value) > e.maxSize
    requires PickTemp(fs, info.path, o.tokens) == pick
    ensures Resize(e, fs, info, o) == Shrink(e, fs, info, o, pick)
  {
  }

  lemma ShrinkIsTransform(e: Engine, fs: FileSystem, info: ImageFileInfo, o: Oracle, tmp: string, cmd: seq<string>)
    requires info.path in fs && tmp !in fs
    requires cmd == ConvertCommand(info.path, tmp, Format(info.path), e.maxSize, e.quality)
    ensures Shrink(e, fs, info, o, Some(tmp)) == Transform(e, fs, info, o, tmp, cmd)
  {
  }

  // ---------------------------------------------------------------------------
  // A run over several files
  // ---------------------------------------------------------------------------

  datatype Job = Job(info: ImageFileInfo, oracle: Oracle)

  function CountTrue(s: seq<bool>): nat {
    if |s| == 0 then 0 else (if s[|s| - 1] then 1 else 0) + CountTrue(s[..|s| - 1])
  }

  lemma {:induction false} CountTruePrepend(b: bool, s: seq<bool>)
    ensures CountTrue([b] + s) == (if b then 1 else 0) + CountTrue(s)
    decreases |s|
  {
    if |s| > 0 {
      var init := s[..|s| - 1];
      assert ([b] + s)[..|s|] == [b] + init;
      CountTruePrepend(b, init);
    }
  }

  /** Where a run over several files stops: the engine and filesystem it
      leaves, the value of every call that returned, and the exception that
      ended it, if one did. */
  datatype Batch = Batch(engine: Engine, fs: FileSystem, results: seq<bool>, failure: Option<ConvertError>)

  /** One call of a run: the engine and filesystem before it, the job, and
      what the call did. */
  type StepFn = (Engine, FileSystem, Job) -> Outcome

  /** `step` on each job in turn, each call seeing the engine and filesystem
      the previous one left, until the first call that raises: a value for
      every job, or the values of the calls before the one that raised, and
      its exception. A raising call leaves the engine as it was. */
  function RunAll(step: StepFn, e: Engine, fs: FileSystem, jobs: seq<Job>): (r: Batch)
    ensures |r.results| <= |jobs|
    ensures r.failure.None? <==> |r.results| == |jobs|
    decreases |jobs|
  {
    if |jobs| == 0 then Batch(e, fs, [], None)
    else
      var o := step(e, fs, jobs[0]);
      if o.result.Failure? then Batch(e, o.fs, [], Some(o.result.error))
      else Prepend(o.result.value, RunAll(step, o.engine, o.fs, jobs[1..]))
  }

  /** A run whose first call returned `v` before the rest ran. */
  function Prepend(v: bool, rest: Batch): Batch {
    Batch(rest.engine, rest.fs, [v] + rest.results, rest.failure)
  }

  /** Running the remaining jobs after the first ones. */
  function Then(first: Batch, rest: Batch): Batch {
    Batch(rest.engine, rest.fs, first.results + rest.results, rest.failure)
  }

  /** The call a run over discovered files makes for each of them. */
  function ConvertStep(e: Engine, fs: FileSystem, job: Job): Outcome {
    Convert(e, fs, job.info, job.oracle)
  }

  /** A run of `convert`: every returned call counts once, True as processed
      and False as skipped; the configuration never changes, and only the
      targets may. */
  lemma {:induction false} RunAllCounts(e: Engine, fs: FileSystem, jobs: seq<Job>)
    ensures var r := RunAll(ConvertStep, e, fs, jobs);
            && Total(r.engine.stats) == Total(e.stats) + |r.results|
            && r.engine.stats.processed == e.stats.processed + CountTrue(r.results)
            && r.engine.stats.skipped == e.stats.skipped + (|r.results| - CountTrue(r.results))
            && r.engine.maxSize == e.maxSize && r.engine.quality == e.quality && r.engine.testMode == e.testMode
            && (e.testMode ==> r.fs == fs)
            && r.fs.Keys == fs.Keys
    decreases |jobs|
  {
    if |jobs| > 0 {
      var o := ConvertStep(e, fs, jobs[0]);
      if o.result.Success? {
        var rest := RunAll(ConvertStep, o.engine, o.fs, jobs[1..]);
        RunAllCounts(o.engine, o.fs, jobs[1..]);
        CountTruePrepend(o.result.value, rest.results);
      }
    }
  }

  /** A run splits at any job boundary its first part gets past: the rest
      starts from the engine and filesystem the first part left. So the
      calls happen one after another in job order, and the first exception
      ends the run. */
  lemma {:induction false} RunAllSplits(step: StepFn, e: Engine, fs: FileSystem, jobs: seq<Job>, k: nat)
    requires k <= |jobs|
    ensures var first := RunAll(step, e, fs, jobs[..k]);
            first.failure.None? ==> RunAll(step, e, fs, jobs) == Then(first, RunAll(step, first.engine, first.fs, jobs[k..]))
    ensures var first := RunAll(step, e, fs, jobs[..k]);
            first.failure.Some? ==> RunAll(step, e, fs, jobs) == first
    decreases k
  {
    if k == 0 {
      assert jobs[..0] == [] && jobs[0..] == jobs;
      assert [] + RunAll(step, e, fs, jobs).results == RunAll(step, e, fs, jobs).results;
    } else {
      var o := step(e, fs, jobs[0]);
      var tail := jobs[1..];
      assert jobs[..k][0] == jobs[0] && jobs[..k][1..] == tail[..k - 1];
      assert tail[k - 1..] == jobs[k..];
      if o.result.Success? {
        RunAllSplits(step, o.engine, o.fs, tail, k - 1);
        var a := RunAll(step, o.engine, o.fs, tail[..k - 1]);
        if a.failure.None? {
          Reassociate([o.result.value], a.results, RunAll(step, a.engine, a.fs, jobs[k..]).results);
        }
      }
    }
  }

  /** Calls `convert` on each job in turn, as a caller looping over the
      discovered files does; the first exception ends the run. */
  method ConvertAll(e: Engine, fs: FileSystem, jobs: seq<Job>)
    returns (e': Engine, fs': FileSystem, results: seq<bool>, failure: Option<ConvertError>)
    ensures Batch(e', fs', results, failure) == RunAll(ConvertStep, e, fs, jobs)
    ensures failure.None? ==> |results| == |jobs|
    ensures failure.Some? ==> |results| < |jobs|
  {
    var b := RunJobs(ConvertStep, e, fs, jobs);
    e', fs', results, failure := b.engine, b.fs, b.results, b.failure;
  }

  /** The loop that makes the calls of a run, one job after another. */
  method RunJobs(step: StepFn, e: Engine, fs: FileSystem, jobs: seq<Job>) returns (b: Batch)
    ensures b == RunAll(step, e, fs, jobs)
  {
    var cur, curFs, results := e, fs, [];
    var i := 0;
    while i < |jobs|
      invariant 0 <= i <= |jobs| && |results| == i
      invariant RunAll(step, e, fs, jobs) == Then(Batch(cur, curFs, results, None), RunAll(step, cur, curFs, jobs[i..]))
    {
      var o := step(cur, curFs, jobs[i]);
      Advance(step, e, fs, jobs, i, cur, curFs, results);
      if o.result.Failure? {
        return Batch(cur, o.fs, results, Some(o.result.error));
      }
      cur, curFs, results := o.engine, o.fs, results + [o.result.value];
      i := i + 1;
    }
    assert jobs[i..] == [];
    assert results + [] == results;
    b := Batch(cur, curFs, results, None);
  }

  /** A loop over the jobs follows `RunAll` one call at a time. */
  lemma Advance(step: StepFn, e: Engine, fs: FileSystem, jobs: seq<Job>, i: nat,
                cur: Engine, curFs: FileSystem, done: seq<bool>)
    requires i < |jobs|
    requires RunAll(step, e, fs, jobs) == Then(Batch(cur, curFs, done, None), RunAll(step, cur, curFs, jobs[i..]))
    ensures var o := step(cur, curFs, jobs[i]);
            o.result.Failure? ==> RunAll(step, e, fs, jobs) == Batch(cur, o.fs, done, Some(o.result.error))
    ensures var o := step(cur, curFs, jobs[i]);
            o.result.Success? ==>
              RunAll(step, e, fs, jobs)
              == Then(Batch(o.engine, o.fs, done + [o.result.value], None), RunAll(step, o.engine, o.fs, jobs[i + 1..]))
  {
    var o := step(cur, curFs, jobs[i]);
    var now := jobs[i..];
    assert now[0] == jobs[i] && now[1..] == jobs[i + 1..];
    if o.result.Failure? {
      assert done + [] == done;
    } else {
      Reassociate(done, [o.result.value], RunAll(step, o.engine, o.fs, jobs[i + 1..]).results);
    }
  }

  lemma Reassociate(x: seq<bool>, y: seq<bool>, z: seq<bool>)
    ensures x + (y + z) == (x + y) + z
  {
  }
}
