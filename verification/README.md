# qimgshrink in Dafny

qimgshrink shrinks the photos kept on a NAS share. It walks a working
directory for image files, and for every image whose longer side exceeds a
configured maximum it has ImageMagick write a smaller copy. The copy then
replaces the original, keeping the original's mode and, where it is allowed,
its owner. A test mode goes through the same steps but leaves the disk alone.
Statistics count processed and skipped files and the bytes saved.

This project models the decision and bookkeeping logic of that program as
pure functions over immutable data, and proves properties of it:

- `ConverterFactory` (factory.dfy): engine selection. Two constructors are
  tried in the preferred order with the same settings, with fallback on
  `ImportError`/`RuntimeError` only and one aggregate error when both fail.
- `Converter2` (converter2.dfy): the ImageMagick engine, covering:
  - the availability probe at construction;
  - the `identify` dimension probe and its output parser;
  - the `convert` argument list;
  - the per-file protocol: access checks, skip decision, a temporary file
    beside the target, test-mode cleanup or move/`chmod`/best-effort
    `chown`, and the statistics update.

  The filesystem is a map from path to a record (content identity, mode,
  uid, gid, size). Each call out of the process is an oracle value passed
  in: `os.access`, the `identify` and `convert` runs, `mkstemp`,
  `shutil.move` (a rename, or its copy fallback), `os.chmod` and
  `os.chown`.
- `Stats` (stats.dfy): the conversion statistics record.
- `Files` (files.dfy): image discovery. A walk of the directory tree, given
  as an input sequence, is filtered by a case-insensitive extension check,
  masked to the permission bits and sorted by path. `permissions_str` is
  also here.
- `Settings` (config.dfy): the configuration record, its defaults and
  setters, and the key-by-key merge of a parsed YAML document.
- `PyStr` (pystr.dfy) and `PyPath` (pypath.dfy): the Python string and path
  builtins the program relies on, with their semantics written out.
  - `PyStr`: `lower`, `lstrip`, `strip`, `split`, `str(int)`, `int(str)`.
  - `PyPath`: `Path.name`, `Path.suffix`, and the `mkstemp` naming scheme.
  - `Path.suffix` is one function shared by the discovery filter and the
    engine's format choice.
- `Wrappers` (wrappers.dfy): `Option` and `Result`.

## Model

| member | source | states |
|---|---|---|
| PyStr.Lower | qimgshrink/files.py:274 | `lower()` keeps the length, leaves no upper-case ASCII letter, maps each one to its lower-case partner and keeps every other character |
| PyStr.LowerIdempotent | qimgshrink/converter2.py:234 | lower-casing an already lower-cased string changes nothing |
| PyStr.Split | qimgshrink/converter2.py:178 | every token `str.split()` yields is non-empty and free of whitespace |
| PyStr.SplitOfInterleave | qimgshrink/converter2.py:178 | words set apart by whitespace gaps, non-empty between words, split back into exactly those words in that order |
| PyStr.SplitDecomposes | qimgshrink/converter2.py:178 | every string is its own `split()` tokens, in order, set apart by whitespace gaps, so the tokens are all of its non-whitespace text |
| PyStr.SplitAfterStrip | qimgshrink/converter2.py:178 | `s.strip().split()` equals `s.split()` for every string |
| PyStr.SplitTwoWords | qimgshrink/converter2.py:178 | two whitespace-free words joined by one space split back into exactly those two words |
| PyStr.Strip | qimgshrink/converter2.py:178 | `strip()` returns a contiguous slice of the input with only whitespace removed on each side |
| PyStr.IntToString | qimgshrink/converter2.py:249 | `str(n)` is a non-empty string without whitespace: a minus sign exactly when `n` is negative, then decimal digits with no leading zero unless `n` is zero |
| PyStr.ParseInt | qimgshrink/converter2.py:179 | an accepted token is non-empty and ends in a digit; an unsigned one gives a value of at least 0 and one with `-` a value of at most 0 |
| PyStr.ParseIntToString | qimgshrink/converter2.py:179 | `int(str(n)) == n` for every integer, negatives included |
| PyStr.ParseIntSign | qimgshrink/converter2.py:179 | a `-` in front of an unsigned literal negates its value and a `+` leaves it unchanged |
| PyPath.Name | qimgshrink/converter2.py:237-239 | the final component is the part of the path after its last '/', and contains no '/' |
| PyPath.DirPrefix | qimgshrink/converter2.py:237-239 | the path is its directory prefix followed by its final component |
| PyPath.Suffix | qimgshrink/files.py:274 | `Path.suffix` is empty or a dot followed by at least one character and no further dot, taken from the end of the final component, and never the whole component |
| PyPath.SuffixOfJoin | qimgshrink/files.py:274 | for a directory, a non-empty stem and an extension of one dot, the suffix of their join is exactly that extension |
| PyPath.SuffixDecomposes | qimgshrink/files.py:274 | a non-empty suffix splits the path into directory, a non-empty stem and that suffix |
| PyPath.TempPathBesideTarget | qimgshrink/converter2.py:237-241 | the temporary file lies in the target's directory and carries the target's suffix |
| Stats.AddSkipped | qimgshrink/converter2.py:230 | a skip adds one to the total and to `skipped` and leaves `processed` and both byte counts unchanged |
| Stats.AddProcessed | qimgshrink/converter2.py:298 | a conversion adds one to the total and to `processed`, leaves `skipped`, adds before to the bytes before and after to the bytes after, so the bytes saved grow by exactly before minus after |
| Stats.RecordingCommutes | tests/test_converter2.py:172-185 | recording skips and conversions in a different order gives the same statistics |
| Files.Oct | qimgshrink/files.py:105 | `oct(n)` is "0o", or "-0o" for a negative, followed by an octal numeral without a superfluous leading zero that reads back as the magnitude of n |
| Files.PermissionsStr | qimgshrink/files.py:103-105 | `oct(permissions)[-3:]` always has three characters |
| Files.PermissionsStrRoundTrip | qimgshrink/files.py:103-105 | for modes 0o100..0o777 the string is three octal digits that read back as the mode |
| Files.PermissionsStrBelow64 | qimgshrink/files.py:105 | below 0o100 the string keeps a character of the "0o" prefix: 0o44 gives "o44" |
| Files.PaddedPermissionsRoundTrip | qimgshrink/files.py:103-105 | the zero-padded rendering reads back as the mode for all of 0..511 and matches `permissions_str` from 0o100 up |
| Files.PathLe | qimgshrink/files.py:296 | string order on paths holds iff the first path is a prefix of the second or has the smaller character at the first position where they differ |
| Files.SortByPath | qimgshrink/files.py:296 | `sorted(key=path)` returns a permutation of its input ordered by path |
| Files.SortedUnique | qimgshrink/files.py:296 | two path-sorted lists with the same members and no repeated path are equal, so the sorted result is determined by its members |
| Files.ToInfo | qimgshrink/files.py:279-285 | the record copies path, uid, gid and size, and its permissions are the low nine bits of the mode (`st_mode & 0o777`), computed bit by bit |
| Files.MaskIsRemainder | qimgshrink/files.py:281 | the low nine bits of a mode, taken bit by bit, are the mode modulo 512 |
| Files.MaskDropsTypeBits | qimgshrink/files.py:281 | file-type and higher bits above the nine permission bits never reach the recorded permissions |
| Files.IsImage | qimgshrink/files.py:273-274 | a selected entry is a regular file whose suffix is a dot and three or four more characters |
| Files.Supported | qimgshrink/files.py:274 | only a suffix of a dot and three or four more characters can match a supported extension after lower-casing |
| Files.ImageFilterByExtension | qimgshrink/files.py:272-274 | a regular file is selected iff its lower-cased extension is a supported one; a directory never is |
| Files.Collect | qimgshrink/files.py:269-293 | the scan succeeds iff the walk raised no `PermissionError`; otherwise it fails with a raised reason |
| Files.CollectMembers | qimgshrink/files.py:272-286 | a record is collected iff some walked entry is a selected image with that record |
| Files.CollectDistinct | qimgshrink/files.py:269-286 | a walk without repeated paths collects records without repeated paths |
| Files.FindImages | qimgshrink/files.py:251-296 | a missing root raises `FileNotFoundError`, a non-directory raises `NotADirectoryError`, a denied scan raises `PermissionError`; otherwise the result is sorted by path, holds exactly the selected images, and has every mode in 0..511 |
| Files.FindImagesExactlyOnce | qimgshrink/files.py:269-296 | each selected image appears exactly once in the result, and no two results share a path |
| Files.FindImagesStrictlyAscending | qimgshrink/files.py:269-296 | for a walk without repeated paths, the result paths strictly ascend, between any two positions and not only neighbours |
| Files.FindImagesIgnoresWalkOrder | qimgshrink/files.py:269-296 | the result does not depend on the order in which the walk yields its entries |
| Converter2.New | qimgshrink/converter2.py:55-93 | construction succeeds iff both `-version` runs launch, whatever their exit status, and the new engine has the given settings and all four counters at zero; it raises the fixed `RuntimeError` iff the first tool that does not launch is missing, and otherwise passes that launch error on |
| Converter2.FirstLaunchError | qimgshrink/converter2.py:78-93 | `identify -version` is only tried once `convert -version` launched, so the error reported is the first one; there is none iff both launched |
| Converter2.ParseDimensions | qimgshrink/converter2.py:178-179 | the output is accepted iff it splits into exactly two tokens that both parse as integers, which become width and height |
| Converter2.ParseDimensionsRoundTrip | qimgshrink/converter2.py:170-179 | "%w %h" output, with any trailing whitespace, parses back to that width and height |
| Converter2.ProbeDimensions | qimgshrink/converter2.py:170-186 | dimensions are returned iff `identify` ran, exited 0 and printed a parsable pair; a failed run, unparsable output, or output that is not valid text (decoding it raises a `ValueError` inside the `try`) raises `RuntimeError`, even after exit status 0; a launch error passes through as its own `OSError` subclass |
| Converter2.Longest | qimgshrink/converter2.py:226 | `max(width, height)` is one of the two sides and at least as large as either |
| Converter2.Format | qimgshrink/converter2.py:234 | the format is the lower-cased suffix without its dot, or empty when there is no suffix |
| Converter2.FormatOfJoin | qimgshrink/converter2.py:234 | the format of `dir/stem.ext` is `ext` lower-cased |
| Converter2.FormatIgnoresCase | qimgshrink/converter2.py:234 | a ".JPG" file has format "jpg" |
| Converter2.FormatOptions | qimgshrink/converter2.py:252-262 | JPEG gets `-quality` and a value that `int()` reads back as the quality; PNG gets six arguments starting `-quality 100` and ending `-interlace PNG`; every other format gets none |
| Converter2.PngIgnoresQuality | qimgshrink/converter2.py:256-262 | the PNG options are the same whatever quality is configured |
| Converter2.ConvertCommand | qimgshrink/converter2.py:245-265 | the argument list starts with `convert <src> -resize <m>x<m>>`, ends with the temporary path, and holds exactly the format options in between |
| Converter2.ConvertCommandByFormat | qimgshrink/converter2.py:252-262 | JPEG adds just `-quality <q>` (reading back as q), PNG the six fixed compression arguments, any other format nothing |
| Converter2.Cleanup | qimgshrink/converter2.py:302-304 | removing a temporary file that may exist leaves every other file as it was and the temporary path absent |
| Converter2.Replace | qimgshrink/converter2.py:280-292 | the call succeeds iff the rename or copy went through, `chmod` succeeded and `chown` succeeded or was refused; then the target holds the converted bytes with the recorded mode, and the recorded owner if `chown` succeeded, else this process after a rename or the original owner after a copy; a refused move changes nothing; a copy whose metadata step fails leaves the new bytes under the old mode and owner |
| Converter2.FirstFree | qimgshrink/converter2.py:237-239 | the name `mkstemp` opens is the first drawn name not already taken; there is none only when every draw is taken |
| Converter2.Transform | qimgshrink/converter2.py:237-315 | for a free temporary name: a failed creation raises and issues no `convert`; any failure removes the temporary file and leaves the statistics; test mode leaves the disk as it was; success records the recorded size against the converted size; a failing metadata copy leaves the new bytes in place and raises; a failing `convert` raises its stderr as text when it decodes and `StderrUndecodable` when it does not |
| Converter2.Shrink | qimgshrink/converter2.py:237-315 | when every drawn name is taken the call raises `FileExistsError` and changes nothing; otherwise it proceeds with the name `mkstemp` picked |
| Converter2.Resize | qimgshrink/converter2.py:222-241 | the call returns False iff the longer side fits, and a skip touches no file and only counts a skip; a failed probe changes nothing; an image that is too large goes on to the temporary file `mkstemp` picks |
| Converter2.Convert | qimgshrink/converter2.py:188-325 | the read check precedes the write check, and an access failure changes nothing and runs nothing; only the target may change and no temporary file remains; test mode changes no file; a failure leaves the statistics, and a failure before the move leaves every file; a real success puts the converted bytes in place with the recorded mode; a failure after the move leaves the original already replaced; each success bumps exactly one counter with the recorded and converted sizes; a failure other than an operating-system error raises `PermissionError` for an access check, `UnicodeDecodeError` for an undecodable `convert` stderr, and `RuntimeError` otherwise |
| Converter2.UndecodableStderrEscapes | qimgshrink/converter2.py:300-324 | when `convert` fails with a stderr that is not valid UTF-8, the temporary file is removed, no file and no counter changes, and the exception is a `UnicodeDecodeError` rather than the `RuntimeError` of the handler |
| Converter2.TestModeRecordsSameStatistics | qimgshrink/converter2.py:279-299 | whenever a real run succeeds, test mode returns the same value and records the same sizes, and leaves the filesystem unchanged |
| Converter2.CommandsInOrder | qimgshrink/converter2.py:206-273 | no command runs when an access check fails; otherwise `identify` runs first, and `convert` second exactly when the image is too large and the temporary file was created, writing into the name `mkstemp` picked |
| Converter2.TakenNameIsSkipped | qimgshrink/converter2.py:237-239 | a drawn temporary name that is already taken changes nothing: the call behaves as if that draw had not happened |
| Converter2.CopyFallbackIsNotAtomic | qimgshrink/converter2.py:282 | when the copy fallback rewrites the target and then fails to copy its metadata, the call raises `PermissionError` with the target already holding the new bytes |
| Converter2.RunAll | tests/test_converter2.py:172-183 | a run over several files returns a value for every file exactly when no call raised; otherwise it holds fewer values than files and the exception that ended it |
| Converter2.RunAllSplits | tests/test_converter2.py:172-183 | the calls happen one after another in file order, each seeing the state the previous call left, and the first exception ends the run with the earlier values kept |
| Converter2.RunAllCounts | tests/test_converter2.py:160-185 | a run of `convert` adds one to the total per returned file, counts True results as processed and False as skipped, never changes the configuration, keeps the set of files, and changes no file in test mode |
| Converter2.RunJobs | tests/test_converter2.py:172-183 | the loop over the files computes exactly the run `RunAll` defines |
| Converter2.ConvertAll | tests/test_converter2.py:160-185 | calling `convert` on each file in turn ends in the engine, files, values and exception of `RunAll` over `convert`, so the counts of `RunAllCounts` hold for it; it stops early exactly when a call raised |
| ConverterFactory.AttemptOrder | qimgshrink/converter_factory.py:48-54 | ImageMagick is tried first iff it is preferred, and the two attempts name different engines |
| ConverterFactory.CreateConverter | qimgshrink/converter_factory.py:46-75 | at most two attempts, the preferred engine first, all with the same settings; the second runs iff the first raised `ImportError`/`RuntimeError`; any other exception propagates; both failing gives the aggregate error |
| ConverterFactory.UnavailableMessageListsBoth | qimgshrink/converter_factory.py:72-75 | the aggregate message lists both "name: message" lines in attempt order |
| ConverterFactory.PreferenceDecidesOnlyTies | qimgshrink/converter_factory.py:56-70 | when both engines build, the preferred one is chosen without fallback; when only one builds and the other fails recoverably, that one is chosen whatever the preference |
| ConverterFactory.ImageMagickConstruction | qimgshrink/converter2.py:55-93 | the ImageMagick constructor builds iff both tools launch, fails with the fixed `RuntimeError` iff the first tool that does not launch is missing, and otherwise fails with that launch error's `OSError` subclass, which the factory does not catch |
| ConverterFactory.MissingImageMagickFallsBack | qimgshrink/converter_factory.py:49-68 | preferring ImageMagick without its tools falls back to a buildable Pillow engine after exactly two attempts |
| ConverterFactory.UnexecutableImageMagickPropagates | qimgshrink/converter_factory.py:56-62 | preferring ImageMagick when `convert` exists but may not be executed raises its `PermissionError` out of the factory after one attempt, without trying Pillow |
| Settings.DefaultValues | qimgshrink/main.py:42-44 | the defaults are "/tmp", 1920 and 97, and a missing or empty file leaves them in place |
| Settings.SetWrkDir | qimgshrink/main.py:60-63 | the setter changes the working directory and nothing else |
| Settings.SetMaxSize | qimgshrink/main.py:79-82 | the setter accepts any integer and changes nothing else |
| Settings.SetQuality | qimgshrink/main.py:98-101 | the setter accepts any integer and changes nothing else |
| Settings.AsInt | qimgshrink/main.py:132-136 | integers and booleans pass the `int` check, `True` as 1 and `False` as 0 |
| Settings.Merge | qimgshrink/main.py:129-136 | each field takes its key's value when present with the right type and keeps its current value otherwise |
| Settings.LoadFromFile | qimgshrink/main.py:103-144 | a missing or empty file changes nothing; a parse error raises the wrapped error and changes nothing; an error opening or reading the file escapes unchanged and changes nothing; a mapping is merged key by key |
| Settings.LoadIdempotent | qimgshrink/main.py:129-136 | loading the same document twice equals loading it once |
| Settings.LaterDocumentWins | qimgshrink/main.py:129-136 | a later document overrides exactly the keys it supplies |
| Settings.DisjointDocumentsCommute | qimgshrink/main.py:129-136 | documents supplying disjoint fields can be loaded in either order |
| Settings.WrongTypesIgnored | tests/test_config.py:124-145 | wrongly typed values are ignored while the other keys apply |
| Settings.BooleanCountsAsInteger | qimgshrink/main.py:132-133 | `max_size: true` sets the size to 1 |

## Left out

- Pixel work: the resize and encoding done by ImageMagick and Pillow. The
  converted content and its size are oracle values, and nothing assumes the
  output is smaller than the input.
- The Pillow `Converter` (qimgshrink/converter.py). Its constructor takes only
  `max_size` and `quality` (qimgshrink/converter.py:28), but the factory
  passes `test_mode` too (qimgshrink/converter_factory.py:58). The resulting
  `TypeError` is not caught. The factory model takes each constructor's
  outcome as an input, so this case is the `OtherFailure` outcome, which
  propagates. The Pillow engine also has no statistics or test mode.
- `ConversionStats` is imported from qimgshrink/converter.py, which does not
  define it; the record is modelled from its call sites.
- The console output (`print` in the factory, `print_report`), `App.run`
  and app.py.
- Stats.Fresh: has no contract of its own. Its zero counters are stated by
  `Converter2.New`.
- Files.SortByPath: proves the result is ordered and a permutation. It does
  not prove that `sorted` is stable, which matters only for equal paths.
- Files.Collect: names a raised reason from the walk. It does not say that
  the reason is from the first denial.
- Converter2.RaisedAs: is a plain classification without a contract. The
  exception classes it gives are stated on `Convert` and `ProbeDimensions`.
- Python's `str.lower()` is modelled on ASCII letters only.
- `int()` accepting non-ASCII digits is not modelled.
- The random part of each `mkstemp` name is an input: the oracle's `tokens`
  are the names the library draws, in order, up to its `TMP_MAX` attempts.
  How they are drawn, and the exact attempt limit, are not modelled.
- Paths are taken as given: `Path.absolute()`, `.` as the parent of a bare
  file name, and symbolic links are not modelled.
- Reading and parsing the YAML file is an input. The file is missing,
  empty, a mapping, a parse error, or one that `open()` or reading rejects.
  A rejected file is known only by its exception's class name. Top-level
  documents that are not mappings, and the default path `etc/config.yaml`,
  are not modelled.
- Settings.BooleanCountsAsInteger: the model stores the integer 1 for
  `max_size: true`. Python stores the boolean `True` itself, which equals 1
  in every comparison and calculation but prints as "True".
- The error messages of `identify` failures, of re-raised `OSError`s and of
  a launch error escaping the ImageMagick constructor are not modelled,
  only their classes. A `convert` failure keeps its stderr when the
  stderr is valid UTF-8; when it is not, `.decode()` raises
  `UnicodeDecodeError` inside the handler, and the outer handler re-raises
  that class (`Converter2.UndecodableStderrEscapes`) with a message the
  model does not keep. `UnicodeDecodeError` is built from five arguments,
  not a message; what `Raise.error` does with it is outside this model.
- Unlinking the temporary file is assumed to succeed, both in test mode and
  in the error handlers.
- The `copy2` fallback of `shutil.move` either fails before it writes
  anything or writes every byte. A copy that stops half-way, and a failure
  of `copystat` after the times are set (while setting the mode), are not
  modelled.
- Concurrency: the program is single-threaded. Nothing else creates,
  changes or removes files between the steps of one call.
- `Raise.error` (from the `jsktoolbox` library, which is not part of this
  model) receives `class_name` and `currentframe` as well as the message.
  The model assumes the raised exception's text is the message as given.
  So the fixed messages of `Converter2.New`,
  `ConverterFactory.ImageMagickConstruction` and the `ParseErrorPrefix` of
  `Settings.LoadFromFile` are the texts passed in, not necessarily the
  texts a caller sees.

## Findings

| source | as written | input that shows it | evidently intended | confidence | as-written member | corrected member |
|---|---|---|---|---|---|---|
| qimgshrink/files.py:103-105 | `permissions_str` keeps the last three characters of `oct()`, so a mode below 0o100 keeps part of the "0o" prefix | mode 0o44 gives "o44"; mode 0o4 gives "0o4" | three zero-padded octal digits ("044", "004") for every mode in 0..511 | medium, not executed | Files.PermissionsStrBelow64 | Files.PaddedPermissionsRoundTrip |
