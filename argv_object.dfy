/** The shared `argv` object the registered checks receive: the last two steps
    rewrite its fields in place, and the argument parser hands the same object
    on from one check to the next. */
module ArgvObject {
  import opened CliOptions
  import P = CommandLineParser
  import ChainProperties

  class Argv {
    var videoUrls: Option<seq<string>>
    var videoUrlsFile: Option<string>
    var aliasF: Option<string>
    var username: Option<string>
    var outputDirectory: string
    var noThumbnails: bool
    var simulate: bool
    var verbose: bool

    /** The options record the object currently holds. */
    function Value(): ParsedArgs
      reads this
    {
      ParsedArgs(videoUrls, videoUrlsFile, aliasF, username, outputDirectory,
                 noThumbnails, simulate, verbose)
    }

    constructor (a: ParsedArgs)
      ensures Value() == a
    {
      videoUrls, videoUrlsFile, aliasF := a.videoUrls, a.videoUrlsFile, a.aliasF;
      username, outputDirectory := a.username, a.outputDirectory;
      noThumbnails, simulate, verbose := a.noThumbnails, a.simulate, a.verbose;
    }

    /** `windowsFileExtensionBadBehaviorFix` on the object: appends `.txt` to
        `videoUrlsFile` in place when only the suffixed path exists. */
    method WindowsFileExtensionBadBehaviorFix(noArgs: bool, existing: set<string>)
      returns (r: Outcome)
      modifies this`videoUrlsFile
      ensures r.Pass? <==> P.WindowsFileExtensionBadBehaviorFix(noArgs, existing, old(Value())).Success?
      ensures r.Pass? ==> Value() == P.WindowsFileExtensionBadBehaviorFix(noArgs, existing, old(Value())).value
      ensures r.Fail? ==> r.error == InputUrlsFileNotFound && Value() == old(Value())
    {
      r := Pass;
      if noArgs || videoUrlsFile.None? || videoUrlsFile.value == "" {
        return;
      }
      if videoUrlsFile.value !in existing {
        if videoUrlsFile.value + TxtExtension in existing {
          videoUrlsFile := Some(videoUrlsFile.value + TxtExtension);
        } else {
          r := Fail(InputUrlsFileNotFound);
        }
      }
    }

    /** `mergeVideoUrlsArguments` on the object: a truthy `videoUrlsFile`
        replaces `videoUrls`, and `videoUrlsFile` and `F` are deleted. */
    method MergeVideoUrlsArguments()
      modifies this`videoUrls, this`videoUrlsFile, this`aliasF
      ensures Value() == P.MergeVideoUrlsArguments(old(Value()))
    {
      if videoUrlsFile.None? || videoUrlsFile.value == "" {
        return;
      }
      videoUrls := Some([videoUrlsFile.value]);
      videoUrlsFile := None;
      aliasF := None;
    }

    /** The registered checks, in order, over this object: the first one that
        throws ends the run and leaves the object as it was. */
    method RunRegisteredChecks(noArgs: bool, existing: set<string>) returns (r: Outcome)
      modifies this`videoUrls, this`videoUrlsFile, this`aliasF
      ensures r.Pass? <==> P.Validate(noArgs, existing, old(Value())).Success?
      ensures r.Pass? ==> Value() == P.Validate(noArgs, existing, old(Value())).value
      ensures r.Fail? ==> r == Fail(P.Validate(noArgs, existing, old(Value())).error)
      ensures r.Fail? ==> Value() == old(Value())
    {
      ChainProperties.ValidateMatchesExpected(noArgs, existing, Value());
      r := P.IsShowHelpRequest(noArgs);
      if r.Fail? {
        return;
      }
      r := P.CheckRequiredArgument(noArgs, Value());
      if r.Fail? {
        return;
      }
      r := P.CheckVideoUrlsArgConflict(noArgs, Value());
      if r.Fail? {
        return;
      }
      r := P.CheckVideoUrlsInput(noArgs, Value());
      if r.Fail? {
        return;
      }
      r := WindowsFileExtensionBadBehaviorFix(noArgs, existing);
      if r.Fail? {
        return;
      }
      MergeVideoUrlsArguments();
    }
  }
}
