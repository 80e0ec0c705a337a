/** The values the argument validator of destreamer works on: the record of
    parsed options, JavaScript truthiness of its two URL-source fields, the
    one-argument `String.prototype.substring`, and the CLI_ERROR enumeration. */
module CliOptions {

  datatype Option<+T> = None | Some(value: T)

  /** The options record as the argument parser hands it over. A field that
      is `None` is absent (undefined) in the JavaScript object. */
  datatype ParsedArgs = ParsedArgs(
    videoUrls: Option<seq<string>>,   // --videoUrls, -V (an array)
    videoUrlsFile: Option<string>,    // --videoUrlsFile
    aliasF: Option<string>,           // the alias key `F` of --videoUrlsFile
    username: Option<string>,         // --username, -u
    outputDirectory: string,          // --outputDirectory, -o (default "videos")
    noThumbnails: bool,               // --noThumbnails, -nthumb
    simulate: bool,                   // --simulate, -s
    verbose: bool                     // --verbose, -v
  )

  /** `argv.videoUrls` is truthy: any array, the empty one included. */
  predicate HasVideoUrls(a: ParsedArgs) {
    a.videoUrls.Some?
  }

  /** `argv.videoUrlsFile` is truthy: present and not the empty string. */
  predicate HasVideoUrlsFile(a: ParsedArgs) {
    a.videoUrlsFile.Some? && a.videoUrlsFile.value != ""
  }

  /** The fields no step of the validator reads or writes. */
  predicate SamePassThrough(a: ParsedArgs, b: ParsedArgs) {
    a.username == b.username && a.outputDirectory == b.outputDirectory &&
    a.noThumbnails == b.noThumbnails && a.simulate == b.simulate && a.verbose == b.verbose
  }

  /** `s.substring(start)` with one argument: the start index is clamped to
      `0 .. s.length`, and the rest of the string from there is returned. */
  function Substring(s: string, start: int): (r: string)
    ensures |r| <= |s| && r == s[|s| - |r|..]
    ensures 0 <= start <= |s| ==> |r| == |s| - start
    ensures start < 0 ==> r == s
    ensures start > |s| ==> r == []
  {
    var from := if start < 0 then 0 else if start > |s| then |s| else start;
    s[from..]
  }

  const TxtExtension: string := ".txt"

  /** The last four characters of `t` are `.txt`. */
  predicate EndsWithTxt(t: string) {
    |t| >= |TxtExtension| && t[|t| - |TxtExtension|..] == TxtExtension
  }

  /** The test `t.substring(t.length - 4) === '.txt'` is exactly "ends in
      `.txt`": on a string shorter than four characters the clamped start is 0
      and the whole string, too short to equal `.txt`, is compared. */
  lemma SubstringTestIsSuffixTest(t: string)
    ensures Substring(t, |t| - 4) == TxtExtension <==> EndsWithTxt(t)
  {
    if |t| < 4 {
      assert Substring(t, |t| - 4) == t;
      assert |t| != |TxtExtension|;
    }
  }

  /** The CLI_ERROR enumeration: every way the chain of checks can stop. */
  datatype CliError =
    | GracefullyStop
    | MissingRequiredArg
    | VideoUrlsArgConflict
    | FileInputVideoUrlsArg
    | InputUrlsFileNotFound
  {
    /** The message text each member of the enumeration stands for. */
    function Message(): string {
      match this
      case GracefullyStop => " "
      case MissingRequiredArg =>
        "You must specify a URLs source.\nValid options are --videoUrls or --videoUrlsFile."
      case VideoUrlsArgConflict =>
        "Too many URLs sources specified!\n" +
        "Please specify a single URLs source with either --videoUrls or --videoUrlsFile."
      case FileInputVideoUrlsArg =>
        "Wrong input for option --videoUrls.\nTo read URLs from file, use --videoUrlsFile option."
      case InputUrlsFileNotFound => "Input URL list file not found."
    }
  }

  /** A check that either returns true or throws with one CLI_ERROR. */
  datatype Outcome = Pass | Fail(error: CliError)

  /** A step that either hands on (possibly rewritten) options or throws. */
  datatype Result<+T> = Success(value: T) | Failure(error: CliError)
}
