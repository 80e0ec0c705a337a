/** The argument validator/normalizer of destreamer: six steps registered with
    the argument parser, run in order over the parsed options, each passing the
    (possibly rewritten) options on or stopping the whole chain with a CLI_ERROR.

    `noArgs` stands for `hasNoArgs()` (the process got no argument at all) and
    `existing` for the paths on which `fs.existsSync` answers true. */
module CommandLineParser {
  import opened CliOptions

  /** `isShowHelpRequest`: with no argument at all, stop gracefully. */
  function IsShowHelpRequest(noArgs: bool): (r: Outcome)
    ensures r.Fail? <==> noArgs
    ensures r.Fail? ==> r.error == GracefullyStop
  {
    if noArgs then Fail(GracefullyStop) else Pass
  }

  /** `checkRequiredArgument`: some source of URLs must be truthy. */
  function CheckRequiredArgument(noArgs: bool, a: ParsedArgs): (r: Outcome)
    ensures r.Pass? <==> noArgs || HasVideoUrls(a) || HasVideoUrlsFile(a)
    ensures r.Fail? ==> r.error == MissingRequiredArg
  {
    if noArgs then Pass
    else if a.videoUrls.None? && (a.videoUrlsFile.None? || a.videoUrlsFile.value == "") then
      Fail(MissingRequiredArg)
    else Pass
  }

  /** `checkVideoUrlsArgConflict`: not both sources may be truthy. */
  function CheckVideoUrlsArgConflict(noArgs: bool, a: ParsedArgs): (r: Outcome)
    ensures r.Fail? <==> !noArgs && HasVideoUrls(a) && HasVideoUrlsFile(a)
    ensures r.Fail? ==> r.error == VideoUrlsArgConflict
  {
    if noArgs then Pass
    else if a.videoUrls.Some? && a.videoUrlsFile.Some? && a.videoUrlsFile.value != "" then
      Fail(VideoUrlsArgConflict)
    else Pass
  }

  /** `checkVideoUrlsInput`: a given URL list must not be empty, and its first
      element (only that one) must not look like a `.txt` file. */
  function CheckVideoUrlsInput(noArgs: bool, a: ParsedArgs): (r: Outcome)
    ensures r == Fail(MissingRequiredArg) <==>
              !noArgs && a.videoUrls.Some? && |a.videoUrls.value| == 0
    ensures r == Fail(FileInputVideoUrlsArg) <==>
              !noArgs && a.videoUrls.Some? && |a.videoUrls.value| > 0 &&
              EndsWithTxt(a.videoUrls.value[0])
    ensures r.Fail? ==> r.error in {MissingRequiredArg, FileInputVideoUrlsArg}
  {
    if noArgs || a.videoUrls.None? then Pass
    else if |a.videoUrls.value| == 0 then Fail(MissingRequiredArg)
    else
      var t := a.videoUrls.value[0];
      SubstringTestIsSuffixTest(t);
      if Substring(t, |t| - 4) == TxtExtension then Fail(FileInputVideoUrlsArg)
      else Pass
  }

  /** `windowsFileExtensionBadBehaviorFix`: a file path that does not exist is
      retried with `.txt` appended; if neither exists the chain stops. Only
      `videoUrlsFile` is ever rewritten (not its alias `F`). */
  function WindowsFileExtensionBadBehaviorFix(noArgs: bool, existing: set<string>, a: ParsedArgs)
    : (r: Result<ParsedArgs>)
    ensures noArgs || !HasVideoUrlsFile(a) ==> r == Success(a)
    ensures !noArgs && HasVideoUrlsFile(a) ==>
              var path := a.videoUrlsFile.value;
              if path in existing then r == Success(a)
              else if path + TxtExtension in existing then
                r == Success(a.(videoUrlsFile := Some(path + TxtExtension)))
              else r == Failure(InputUrlsFileNotFound)
  {
    if noArgs || a.videoUrlsFile.None? || a.videoUrlsFile.value == "" then Success(a)
    else if a.videoUrlsFile.value !in existing then
      if a.videoUrlsFile.value + TxtExtension in existing then
        Success(a.(videoUrlsFile := Some(a.videoUrlsFile.value + TxtExtension)))
      else Failure(InputUrlsFileNotFound)
    else Success(a)
  }

  /** `mergeVideoUrlsArguments`: a truthy file path becomes the one-element URL
      list, and `videoUrlsFile` and `F` are deleted; otherwise nothing changes. */
  function MergeVideoUrlsArguments(a: ParsedArgs): (r: ParsedArgs)
    ensures HasVideoUrlsFile(a) ==>
              r.videoUrls == Some([a.videoUrlsFile.value]) &&
              r.videoUrlsFile == None && r.aliasF == None
    ensures !HasVideoUrlsFile(a) ==> r == a
    ensures SamePassThrough(a, r)
    ensures !HasVideoUrlsFile(r)
  {
    if a.videoUrlsFile.None? || a.videoUrlsFile.value == "" then a
    else a.(videoUrls := Some([a.videoUrlsFile.value]), videoUrlsFile := None, aliasF := None)
  }

  /** The six functions handed to the parser's `.check`. */
  datatype Check =
    | ShowHelpRequestCheck
    | RequiredArgumentCheck
    | ArgConflictCheck
    | VideoUrlsInputCheck
    | FileExtensionFix
    | MergeArguments
  {
    /** The four that only inspect the options; the last two rewrite them. */
    predicate IsValidation() {
      !(FileExtensionFix? || MergeArguments?)
    }
  }

  /** The order in which the checks are registered. */
  const RegisteredChecks: seq<Check> :=
    [ShowHelpRequestCheck, RequiredArgumentCheck, ArgConflictCheck, VideoUrlsInputCheck,
     FileExtensionFix, MergeArguments]

  function Then(o: Outcome, a: ParsedArgs): Result<ParsedArgs> {
    match o
    case Pass => Success(a)
    case Fail(e) => Failure(e)
  }

  /** One check applied to the shared options object. */
  function Apply(c: Check, noArgs: bool, existing: set<string>, a: ParsedArgs)
    : (r: Result<ParsedArgs>)
    ensures r.Success? ==> SamePassThrough(a, r.value)
    ensures r.Success? && c.IsValidation() ==> r.value == a
  {
    match c
    case ShowHelpRequestCheck => Then(IsShowHelpRequest(noArgs), a)
    case RequiredArgumentCheck => Then(CheckRequiredArgument(noArgs, a), a)
    case ArgConflictCheck => Then(CheckVideoUrlsArgConflict(noArgs, a), a)
    case VideoUrlsInputCheck => Then(CheckVideoUrlsInput(noArgs, a), a)
    case FileExtensionFix => WindowsFileExtensionBadBehaviorFix(noArgs, existing, a)
    case MergeArguments => Success(MergeVideoUrlsArguments(a))
  }

  /** Runs `checks` in order over the options: the first check that throws
      ends the chain with its error, and every check sees the options as the
      checks before it left them. */
  function RunChecks(checks: seq<Check>, noArgs: bool, existing: set<string>, a: ParsedArgs)
    : (r: Result<ParsedArgs>)
    ensures r.Success? ==> SamePassThrough(a, r.value)
    ensures r.Success? && (forall c <- checks :: c.IsValidation()) ==> r.value == a
    decreases |checks|
  {
    if checks == [] then Success(a)
    else
      match Apply(checks[0], noArgs, existing, a)
      case Failure(e) => Failure(e)
      case Success(next) => RunChecks(checks[1..], noArgs, existing, next)
  }

  /** The whole validator: the registered checks over the parsed options. */
  function Validate(noArgs: bool, existing: set<string>, a: ParsedArgs): (r: Result<ParsedArgs>)
    ensures r.Success? ==> SamePassThrough(a, r.value)
  {
    RunChecks(RegisteredChecks, noArgs, existing, a)
  }
}
