/** What the ordered chain of checks promises, stated against a decision table
    that reads the outcome straight off the options, and proved about
    `Validate`, the fold of the registered checks. */
module ChainProperties {
  import opened CliOptions
  import opened CommandLineParser

  /** The path the file-extension fix settles on, if any: the path itself when
      it exists, else the path with `.txt` appended when that exists. */
  function ResolvedPath(existing: set<string>, path: string): (r: Option<string>)
    ensures path in existing ==> r == Some(path)
    ensures path !in existing && path + TxtExtension in existing ==> r == Some(path + TxtExtension)
    ensures r.Some? ==> r.value in existing
    ensures r.Some? ==> r.value == path || r.value == path + TxtExtension
    ensures r.None? <==> path !in existing && path + TxtExtension !in existing
  {
    if path in existing then Some(path)
    else if path + TxtExtension in existing then Some(path + TxtExtension)
    else None
  }

  /** Reference outcome of the chain, one row per condition, first match wins. */
  function Expected(noArgs: bool, existing: set<string>, a: ParsedArgs): Result<ParsedArgs> {
    if noArgs then Failure(GracefullyStop)
    else if !HasVideoUrls(a) && !HasVideoUrlsFile(a) then Failure(MissingRequiredArg)
    else if HasVideoUrls(a) && HasVideoUrlsFile(a) then Failure(VideoUrlsArgConflict)
    else if HasVideoUrls(a) && |a.videoUrls.value| == 0 then Failure(MissingRequiredArg)
    else if HasVideoUrls(a) && EndsWithTxt(a.videoUrls.value[0]) then Failure(FileInputVideoUrlsArg)
    else if !HasVideoUrlsFile(a) then Success(a)
    else
      match ResolvedPath(existing, a.videoUrlsFile.value)
      case None => Failure(InputUrlsFileNotFound)
      case Some(p) => Success(a.(videoUrls := Some([p]), videoUrlsFile := None, aliasF := None))
  }

  /** Running one check and then the rest is the same as running the rest on
      what the first check left behind. */
  lemma {:induction false} RunChecksStep(c: Check, rest: seq<Check>, noArgs: bool,
                                         existing: set<string>, a: ParsedArgs)
    ensures RunChecks([c] + rest, noArgs, existing, a) ==
            match Apply(c, noArgs, existing, a)
            case Failure(e) => Failure(e)
            case Success(next) => RunChecks(rest, noArgs, existing, next)
  {
    assert ([c] + rest)[0] == c;
    assert ([c] + rest)[1..] == rest;
  }

  /** The fold of the registered checks is the decision table. */
  lemma ValidateMatchesExpected(noArgs: bool, existing: set<string>, a: ParsedArgs)
    ensures Validate(noArgs, existing, a) == Expected(noArgs, existing, a)
  {
    var tail2 := [FileExtensionFix, MergeArguments];
    var tail3 := [VideoUrlsInputCheck] + tail2;
    var tail4 := [ArgConflictCheck] + tail3;
    var tail5 := [RequiredArgumentCheck] + tail4;
    assert RegisteredChecks == [ShowHelpRequestCheck] + tail5;
    RunChecksStep(ShowHelpRequestCheck, tail5, noArgs, existing, a);
    if noArgs {
      return;
    }
    RunChecksStep(RequiredArgumentCheck, tail4, noArgs, existing, a);
    if !HasVideoUrls(a) && !HasVideoUrlsFile(a) {
      return;
    }
    RunChecksStep(ArgConflictCheck, tail3, noArgs, existing, a);
    if HasVideoUrls(a) && HasVideoUrlsFile(a) {
      return;
    }
    RunChecksStep(VideoUrlsInputCheck, tail2, noArgs, existing, a);
    if HasVideoUrls(a) {
      return;
    }
    assert tail2 == [FileExtensionFix] + [MergeArguments];
    RunChecksStep(FileExtensionFix, [MergeArguments], noArgs, existing, a);
    var fixed := WindowsFileExtensionBadBehaviorFix(noArgs, existing, a);
    if fixed.Success? {
      assert [MergeArguments] == [MergeArguments] + [];
      RunChecksStep(MergeArguments, [], noArgs, existing, fixed.value);
    }
  }

  /** With no argument at all the chain stops gracefully, whatever the options. */
  lemma NoArgumentsStopGracefully(existing: set<string>, a: ParsedArgs)
    ensures Validate(true, existing, a) == Failure(GracefullyStop)
  {
    ValidateMatchesExpected(true, existing, a);
  }

  /** Neither URL source truthy: a URLs source is missing. */
  lemma NoSourceIsMissing(existing: set<string>, a: ParsedArgs)
    requires !HasVideoUrls(a) && !HasVideoUrlsFile(a)
    ensures Validate(false, existing, a) == Failure(MissingRequiredArg)
  {
    ValidateMatchesExpected(false, existing, a);
  }

  /** Both URL sources truthy: conflict, even for an empty URL list, since the
      conflict check runs before the emptiness check. */
  lemma BothSourcesConflict(existing: set<string>, a: ParsedArgs)
    requires HasVideoUrls(a) && HasVideoUrlsFile(a)
    ensures Validate(false, existing, a) == Failure(VideoUrlsArgConflict)
  {
    ValidateMatchesExpected(false, existing, a);
  }

  /** An empty URL list with no truthy file path: a URLs source is missing. */
  lemma EmptyUrlListIsMissing(existing: set<string>, a: ParsedArgs)
    requires a.videoUrls == Some([]) && !HasVideoUrlsFile(a)
    ensures Validate(false, existing, a) == Failure(MissingRequiredArg)
  {
    ValidateMatchesExpected(false, existing, a);
  }

  /** The URL list is accepted exactly when its first element does not end in
      `.txt`, and then the options come back untouched; later elements are not
      inspected. */
  lemma UrlListFirstElementDecides(existing: set<string>, a: ParsedArgs)
    requires a.videoUrls.Some? && |a.videoUrls.value| > 0 && !HasVideoUrlsFile(a)
    ensures EndsWithTxt(a.videoUrls.value[0]) ==>
              Validate(false, existing, a) == Failure(FileInputVideoUrlsArg)
    ensures !EndsWithTxt(a.videoUrls.value[0]) ==> Validate(false, existing, a) == Success(a)
  {
    ValidateMatchesExpected(false, existing, a);
  }

  /** A truthy file path (and no URL list) that exists is kept as it is and
      becomes the one-element URL list. */
  lemma ExistingFileIsKept(existing: set<string>, a: ParsedArgs)
    requires !HasVideoUrls(a) && HasVideoUrlsFile(a) && a.videoUrlsFile.value in existing
    ensures Validate(false, existing, a) ==
              Success(a.(videoUrls := Some([a.videoUrlsFile.value]),
                         videoUrlsFile := None, aliasF := None))
  {
    ValidateMatchesExpected(false, existing, a);
  }

  /** A truthy file path that does not exist, but does with `.txt` appended,
      is rewritten to that and becomes the one-element URL list. */
  lemma MissingFileRecoveredWithTxt(existing: set<string>, a: ParsedArgs)
    requires !HasVideoUrls(a) && HasVideoUrlsFile(a)
    requires a.videoUrlsFile.value !in existing
    requires a.videoUrlsFile.value + TxtExtension in existing
    ensures Validate(false, existing, a) ==
              Success(a.(videoUrls := Some([a.videoUrlsFile.value + TxtExtension]),
                         videoUrlsFile := None, aliasF := None))
  {
    ValidateMatchesExpected(false, existing, a);
  }

  /** A truthy file path that exists neither as given nor with `.txt`. */
  lemma MissingFileNotFound(existing: set<string>, a: ParsedArgs)
    requires !HasVideoUrls(a) && HasVideoUrlsFile(a)
    requires a.videoUrlsFile.value !in existing
    requires a.videoUrlsFile.value + TxtExtension !in existing
    ensures Validate(false, existing, a) == Failure(InputUrlsFileNotFound)
  {
    ValidateMatchesExpected(false, existing, a);
  }

  /** A successful run means exactly one URL source was given, and leaves one
      non-empty URL list behind and no truthy file path, with the fields the
      chain does not handle untouched. */
  lemma SuccessHasOneSource(noArgs: bool, existing: set<string>, a: ParsedArgs)
    requires Validate(noArgs, existing, a).Success?
    ensures !noArgs && HasVideoUrls(a) != HasVideoUrlsFile(a)
    ensures var b := Validate(noArgs, existing, a).value;
            b.videoUrls.Some? && |b.videoUrls.value| > 0 &&
            !HasVideoUrlsFile(b) && SamePassThrough(a, b)
    ensures HasVideoUrls(a) ==> Validate(noArgs, existing, a).value == a
    ensures HasVideoUrlsFile(a) ==>
              Validate(noArgs, existing, a).value.videoUrlsFile == None &&
              Validate(noArgs, existing, a).value.aliasF == None
  {
    ValidateMatchesExpected(noArgs, existing, a);
  }

  /** Merging is idempotent: a merged record has no truthy file path left. */
  lemma MergeIdempotent(a: ParsedArgs)
    ensures MergeVideoUrlsArguments(MergeVideoUrlsArguments(a)) == MergeVideoUrlsArguments(a)
  {
  }

  /** Running the whole chain again on its own successful result gives the same
      result back, except when the result came from a file path ending in
      `.txt`: that path is now the first URL, and the URL check rejects it. */
  lemma RevalidateSuccess(existing: set<string>, a: ParsedArgs)
    requires Validate(false, existing, a).Success?
    ensures var b := Validate(false, existing, a).value;
            b.videoUrls.Some? && |b.videoUrls.value| > 0 &&
            Validate(false, existing, b) ==
              if EndsWithTxt(b.videoUrls.value[0]) then Failure(FileInputVideoUrlsArg)
              else Success(b)
  {
    SuccessHasOneSource(false, existing, a);
    UrlListFirstElementDecides(existing, Validate(false, existing, a).value);
  }

  /** The recovered `.txt` path is always rejected when run through the chain
      a second time: a path-based result is not a fixed point of the chain. */
  lemma RecoveredPathFailsRevalidation(existing: set<string>)
    requires "list" !in existing && "list.txt" in existing
    ensures var a := ParsedArgs(None, Some("list"), Some("list"), None, "videos",
                                false, false, false);
            var b := ParsedArgs(Some(["list.txt"]), None, None, None, "videos",
                                false, false, false);
            Validate(false, existing, a) == Success(b) &&
            Validate(false, existing, b) == Failure(FileInputVideoUrlsArg)
  {
    var a := ParsedArgs(None, Some("list"), Some("list"), None, "videos", false, false, false);
    var b := ParsedArgs(Some(["list.txt"]), None, None, None, "videos", false, false, false);
    assert "list" + TxtExtension == "list.txt";
    MissingFileRecoveredWithTxt(existing, a);
    assert EndsWithTxt("list.txt");
    UrlListFirstElementDecides(existing, b);
  }
}
