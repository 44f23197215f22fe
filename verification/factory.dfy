/** Engine selection (`create_converter`): two constructors tried in the
    preferred order with the same settings, falling back only on
    `ImportError` or `RuntimeError`, and a single aggregate `RuntimeError`
    when both fail. What a constructor does is an input. */
module ConverterFactory {
  import Converter2
  import opened Wrappers

  datatype Backend = Pillow | ImageMagick

  function Name(b: Backend): string {
    match b
    case Pillow => "Pillow"
    case ImageMagick => "ImageMagick"
  }

  /** The arguments every constructor receives. */
  datatype Settings = Settings(maxSize: int, quality: int, testMode: bool)

  /** How calling one constructor ended. */
  datatype Construction =
    | Built
    | ImportFailed(message: string)
    | RuntimeFailed(message: string)
    | OtherFailure(exceptionType: string, message: string)

  /** The two exception classes the factory catches. */
  predicate Recoverable(c: Construction) {
    c.ImportFailed? || c.RuntimeFailed?
  }

  datatype Attempt = Attempt(backend: Backend, settings: Settings)

  datatype Selection =
    | Selected(backend: Backend, isFallback: bool)
    | Unavailable(message: string)                       // the aggregate RuntimeError
    | Propagated(backend: Backend, failure: Construction)  // an uncaught exception

  datatype FactoryOutcome = FactoryOutcome(selection: Selection, attempts: seq<Attempt>)

  function AttemptOrder(preferImageMagick: bool): (order: (Backend, Backend))
    ensures order.0 != order.1
    ensures order.0 == ImageMagick <==> preferImageMagick
  {
    if preferImageMagick then (ImageMagick, Pillow) else (Pillow, ImageMagick)
  }

  /** `f"{name}: {e}"` for a caught constructor failure. */
  function ErrorLine(b: Backend, c: Construction): string
    requires Recoverable(c)
  {
    Name(b) + ": " + c.message
  }

  function JoinLines(lines: seq<string>): string {
    if |lines| == 0 then ""
    else if |lines| == 1 then lines[0]
    else JoinLines(lines[..|lines| - 1]) + "\n" + lines[|lines| - 1]
  }

  const AggregateHeader: string := "No converter implementation available. Errors:\n"

  function AggregateMessage(errors: seq<string>): string {
    AggregateHeader + JoinLines(seq(|errors|, i requires 0 <= i < |errors| => "  - " + errors[i]))
  }

  /** `create_converter(max_size, quality, test_mode, prefer_imagemagick)`. */
  function CreateConverter(settings: Settings, preferImageMagick: bool,
                           construct: (Backend, Settings) -> Construction): (r: FactoryOutcome)
    // at most two attempts, the preferred engine first, all with the same settings
    ensures 1 <= |r.attempts| <= 2
    ensures r.attempts[0].backend == AttemptOrder(preferImageMagick).0
    ensures |r.attempts| == 2 ==> r.attempts[1].backend == AttemptOrder(preferImageMagick).1
    ensures forall i :: 0 <= i < |r.attempts| ==> r.attempts[i].settings == settings
    // the second constructor is called only after a caught failure of the first
    ensures |r.attempts| == 2 <==> Recoverable(construct(AttemptOrder(preferImageMagick).0, settings))
    // the outcome follows from the constructors that were called
    ensures r.selection.Selected? ==>
              construct(r.selection.backend, settings).Built?
              && r.attempts[|r.attempts| - 1].backend == r.selection.backend
              && (r.selection.isFallback <==> |r.attempts| == 2)
    ensures r.selection.Propagated? ==>
              r.selection.failure == construct(r.selection.backend, settings)
              && r.selection.failure.OtherFailure?
              && r.attempts[|r.attempts| - 1].backend == r.selection.backend
    ensures r.selection.Unavailable? <==>
              |r.attempts| == 2 && Recoverable(construct(r.attempts[0].backend, settings))
              && Recoverable(construct(r.attempts[1].backend, settings))
  {
    var (first, second) := AttemptOrder(preferImageMagick);
    var c1 := construct(first, settings);
    if c1.Built? then
      FactoryOutcome(Selected(first, false), [Attempt(first, settings)])
    else if !Recoverable(c1) then
      FactoryOutcome(Propagated(first, c1), [Attempt(first, settings)])
    else
      var tried := [Attempt(first, settings), Attempt(second, settings)];
      var c2 := construct(second, settings);
      if c2.Built? then FactoryOutcome(Selected(second, true), tried)
      else if !Recoverable(c2) then FactoryOutcome(Propagated(second, c2), tried)
      else FactoryOutcome(Unavailable(AggregateMessage([ErrorLine(first, c1), ErrorLine(second, c2)])), tried)
  }

  /** The aggregate message names both failures, in attempt order, each on
      its own indented line. */
  lemma UnavailableMessageListsBoth(settings: Settings, preferImageMagick: bool,
                                    construct: (Backend, Settings) -> Construction)
    requires CreateConverter(settings, preferImageMagick, construct).selection.Unavailable?
    ensures var (first, second) := AttemptOrder(preferImageMagick);
            CreateConverter(settings, preferImageMagick, construct).selection.message
              == AggregateHeader + "  - " + ErrorLine(first, construct(first, settings))
                 + "\n" + "  - " + ErrorLine(second, construct(second, settings))
  {
    var (first, second) := AttemptOrder(preferImageMagick);
    TwoErrorMessage(ErrorLine(first, construct(first, settings)), ErrorLine(second, construct(second, settings)));
  }

  lemma TwoErrorMessage(e1: string, e2: string)
    ensures AggregateMessage([e1, e2]) == AggregateHeader + "  - " + e1 + "\n" + "  - " + e2
  {
    var errors := [e1, e2];
    var lines := seq(|errors|, i requires 0 <= i < |errors| => "  - " + errors[i]);
    assert lines == ["  - " + e1, "  - " + e2];
    assert lines[..1] == ["  - " + e1];
    assert JoinLines(lines) == ("  - " + e1) + "\n" + ("  - " + e2);
    assert AggregateHeader + (("  - " + e1) + "\n" + ("  - " + e2))
        == AggregateHeader + "  - " + e1 + "\n" + "  - " + e2;
  }

  /** When both engines can be built, the preference alone decides and no
      fallback happens; when only one can be built, it is chosen whatever the
      preference, provided the other fails in a way the factory catches. */
  lemma PreferenceDecidesOnlyTies(settings: Settings, preferImageMagick: bool,
                                  construct: (Backend, Settings) -> Construction)
    ensures construct(Pillow, settings).Built? && construct(ImageMagick, settings).Built? ==>
              CreateConverter(settings, preferImageMagick, construct).selection
                == Selected(if preferImageMagick then ImageMagick else Pillow, false)
    ensures forall b: Backend ::
              construct(b, settings).Built? && Recoverable(construct(Other(b), settings)) ==>
                CreateConverter(settings, preferImageMagick, construct).selection.Selected?
                && CreateConverter(settings, preferImageMagick, construct).selection.backend == b
  {
  }

  function Other(b: Backend): Backend {
    if b == Pillow then ImageMagick else Pillow
  }

  /** The ImageMagick constructor as the factory sees it: `Converter2` fails
      with a `RuntimeError` carrying the fixed message exactly when the first
      tool that does not launch is missing; a tool that exists but does not
      launch raises its own `OSError` subclass, which the factory does not
      catch. */
  function ImageMagickConstruction(settings: Settings, convertVersion: Converter2.Launch,
                                   identifyVersion: Converter2.Launch): (c: Construction)
    ensures c.Built? <==> convertVersion.Ran? && identifyVersion.Ran?
    ensures c.ImportFailed? == false
    ensures c.RuntimeFailed? <==> Converter2.FirstLaunchError(convertVersion, identifyVersion) == Some(Converter2.NoSuchFile)
    ensures c.RuntimeFailed? ==> c.message == Converter2.NotInstalledMessage
    ensures c.OtherFailure? ==>
              var err := Converter2.FirstLaunchError(convertVersion, identifyVersion);
              err.Some? && err.value != Converter2.NoSuchFile
              && c.exceptionType == Converter2.ExceptionName(Converter2.OsErrorClass(err.value))
  {
    var built := Converter2.New(settings.maxSize, settings.quality, settings.testMode, convertVersion, identifyVersion);
    if built.Success? then Built
    else if built.error.ToolsMissing? then RuntimeFailed(built.error.message)
    else
      // the text of the OSError is not modelled
      OtherFailure(Converter2.ExceptionName(Converter2.OsErrorClass(built.error.error)), "")
  }

  /** Preferring ImageMagick on a machine without it falls back to Pillow
      when Pillow can be built. */
  lemma MissingImageMagickFallsBack(settings: Settings, construct: (Backend, Settings) -> Construction,
                                    identifyVersion: Converter2.Launch)
    requires construct(ImageMagick, settings)
             == ImageMagickConstruction(settings, Converter2.LaunchFailed(Converter2.NoSuchFile), identifyVersion)
    requires construct(Pillow, settings).Built?
    ensures CreateConverter(settings, true, construct) ==
              FactoryOutcome(Selected(Pillow, true), [Attempt(ImageMagick, settings), Attempt(Pillow, settings)])
  {
  }

  /** A `convert` that exists but may not be executed is not a missing tool:
      its `PermissionError` escapes the factory on the first attempt, and
      Pillow is never tried, even when it could be built. */
  lemma UnexecutableImageMagickPropagates(settings: Settings, construct: (Backend, Settings) -> Construction,
                                          identifyVersion: Converter2.Launch)
    requires construct(ImageMagick, settings)
             == ImageMagickConstruction(settings, Converter2.LaunchFailed(Converter2.PermissionDenied), identifyVersion)
    ensures var r := CreateConverter(settings, true, construct);
            && r.attempts == [Attempt(ImageMagick, settings)]
            && r.selection.Propagated? && r.selection.backend == ImageMagick
            && r.selection.failure.exceptionType == "PermissionError"
  {
    var c := construct(ImageMagick, settings);
    assert c.OtherFailure?;
  }
}
