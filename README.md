# destreamer command-line argument validator, in Dafny

destreamer downloads videos. Before it does anything else, it registers six
functions with its argument parser's `.check` hook, in a fixed order, and the
parser runs them over the parsed options object:

1. `isShowHelpRequest`: with no argument at all, stop gracefully so that help is shown.
2. `checkRequiredArgument`: a URLs source is required, either `--videoUrls` or `--videoUrlsFile`.
3. `checkVideoUrlsArgConflict`: the two sources may not both be given.
4. `checkVideoUrlsInput`: a URL list must not be empty. Its first element must not end in `.txt`.
5. `windowsFileExtensionBadBehaviorFix`: a file path that does not exist is retried with `.txt` appended. If neither exists, the chain stops.
6. `mergeVideoUrlsArguments`: a file path becomes a one-element URL list. `videoUrlsFile` and its alias `F` are then deleted.

A check either passes or throws one of the `CLI_ERROR` messages. The first
throw ends the chain. Steps 5 and 6 rewrite the shared object in place.

The model has four modules:

- `CliOptions` (cli_options.dfy) holds the data:
  - the options record `ParsedArgs`;
  - JavaScript truthiness of the two URL-source fields (`HasVideoUrls` and `HasVideoUrlsFile`; an empty array is truthy, an empty string is not);
  - the one-argument `String.prototype.substring`, with indices counted in characters (see `## Left out`);
  - `CliError`, the `CLI_ERROR` enumeration with its message texts.
- `CommandLineParser` (command_line_parser.dfy) holds:
  - the six steps as functions on values;
  - the registered order `RegisteredChecks`;
  - `RunChecks`, a short-circuiting fold that hands each check the options as the previous checks left them;
  - `Validate`, the whole chain.
- `ChainProperties` (chain_properties.dfy) holds:
  - `Expected`, a decision table that reads the outcome straight off the options;
  - the proof that `Validate` equals `Expected`;
  - the properties the chain promises, each derived from that equality.
- `ArgvObject` (argv_object.dfy) holds `Argv`, the shared options object as a class with mutable fields. Its methods perform steps 5 and 6 in place and run the whole chain on the object. Each is proved to agree with the functions above.

The process's argument count is a parameter, `noArgs`, standing for `hasNoArgs()`. The file system is a parameter, `existing`: the set of paths on which `fs.existsSync` answers true.

Three consequences of the code are worth stating:

- An empty `videoUrls` is not always the missing-source error. `[]` is truthy, so with a truthy file path also given, the conflict check (src/CommandLineParser.ts:106) fires first. `BothSourcesConflict` and `EmptyUrlListIsMissing` state the two cases.
- The merge step is idempotent (`MergeIdempotent`), but the whole chain is not: run it again on a result that came from a file path ending in `.txt`, and the URL check rejects it (`RevalidateSuccess`, `RecoveredPathFailsRevalidation`).
- A source counts as given when it is JavaScript-truthy. A `videoUrlsFile` equal to `""` counts as not given: it is neither checked nor merged, and it stays in the result.

## Model

| member | source | states |
|---|---|---|
| `CliOptions.Substring` | src/CommandLineParser.ts:119-120 | `substring` with one argument clamps its start to `0 .. length`: a negative start gives the whole string, a start past the end gives `""`, and an in-range start gives the suffix from that index |
| `CliOptions.SubstringTestIsSuffixTest` | src/CommandLineParser.ts:119-121 | the test `t.substring(t.length-4) === '.txt'` holds exactly when `t` ends in `.txt`, short strings included |
| `CommandLineParser.IsShowHelpRequest` | src/CommandLineParser.ts:81-90 | throws, with the graceful-stop error, exactly when there is no argument |
| `CommandLineParser.CheckRequiredArgument` | src/CommandLineParser.ts:92-100 | passes exactly when there is no argument or some URL source is truthy; otherwise fails with the missing-source error |
| `CommandLineParser.CheckVideoUrlsArgConflict` | src/CommandLineParser.ts:102-110 | fails, with the conflict error, exactly when both sources are truthy (an empty list included) |
| `CommandLineParser.CheckVideoUrlsInput` | src/CommandLineParser.ts:112-124 | missing-source error exactly for a given empty list; wrong-input error exactly when the first element ends in `.txt`; no other error |
| `CommandLineParser.WindowsFileExtensionBadBehaviorFix` | src/CommandLineParser.ts:145-158 | with no truthy path, nothing changes; otherwise an existing path is kept, else path + `.txt` is taken when that exists, else file-not-found; only `videoUrlsFile` changes |
| `CommandLineParser.MergeVideoUrlsArguments` | src/CommandLineParser.ts:126-143 | a truthy file path becomes the one-element URL list, with `videoUrlsFile` and `F` absent; a falsy one leaves the options unchanged; pass-through fields are kept, and no truthy path remains |
| `CommandLineParser.Apply` | src/CommandLineParser.ts:56-61 | any registered check keeps the pass-through fields; the four validations hand the options on unchanged |
| `CommandLineParser.RunChecks` | src/CommandLineParser.ts:51-62 | a run of any list of checks in order keeps the pass-through fields; a list of validations alone returns the options unchanged |
| `CommandLineParser.Validate` | src/CommandLineParser.ts:56-62 | a successful run of the registered chain keeps username, output directory and the three flags |
| `ChainProperties.ResolvedPath` | src/CommandLineParser.ts:150-155 | an existing path is kept in preference to its `.txt` form; otherwise the `.txt` form is taken when it exists; there is none exactly when neither exists |
| `ChainProperties.ValidateMatchesExpected` | src/CommandLineParser.ts:56-158 | the ordered chain equals the decision table: graceful stop, missing, conflict, empty list, `.txt` URL, then file resolution and merge |
| `ChainProperties.NoArgumentsStopGracefully` | src/CommandLineParser.ts:81-90 | with no argument the chain ends in the graceful stop, whatever the options |
| `ChainProperties.NoSourceIsMissing` | src/CommandLineParser.ts:92-100 | with an argument and neither source truthy, the result is the missing-source error |
| `ChainProperties.BothSourcesConflict` | src/CommandLineParser.ts:102-110 | both sources truthy, even `videoUrls = []`, gives the conflict error |
| `ChainProperties.EmptyUrlListIsMissing` | src/CommandLineParser.ts:112-117 | an empty URL list without a truthy file path gives the missing-source error |
| `ChainProperties.UrlListFirstElementDecides` | src/CommandLineParser.ts:112-124 | a non-empty URL list is rejected exactly when element 0 ends in `.txt`, and is otherwise returned unchanged |
| `ChainProperties.ExistingFileIsKept` | src/CommandLineParser.ts:132-150 | an existing file path is kept and becomes `videoUrls = [path]`, without `videoUrlsFile` or `F` |
| `ChainProperties.MissingFileRecoveredWithTxt` | src/CommandLineParser.ts:132-152 | a missing path whose `.txt` form exists gives `videoUrls = [path + ".txt"]`, without `videoUrlsFile` or `F` |
| `ChainProperties.MissingFileNotFound` | src/CommandLineParser.ts:150-155 | a path that exists neither as given nor with `.txt` gives the file-not-found error |
| `ChainProperties.SuccessHasOneSource` | src/CommandLineParser.ts:56-62 | success means there was an argument and exactly one truthy source; the result has a non-empty URL list, no truthy file path, the pass-through fields unchanged; a URL-list input comes back unchanged |
| `ChainProperties.MergeIdempotent` | src/CommandLineParser.ts:132-143 | merging twice is merging once |
| `ChainProperties.RevalidateSuccess` | src/CommandLineParser.ts:112-143 | running the chain on its own result returns that result again, unless the first URL ends in `.txt`, which is then rejected |
| `ChainProperties.RecoveredPathFailsRevalidation` | src/CommandLineParser.ts:119-152 | `list` recovered as `list.txt` is accepted once, and its result is rejected on a second run |
| `ArgvObject.Argv.WindowsFileExtensionBadBehaviorFix` | src/CommandLineParser.ts:146-158 | the in-place `+= '.txt'` leaves the object holding what the value-level fix returns; on failure the object is unchanged |
| `ArgvObject.Argv.MergeVideoUrlsArguments` | src/CommandLineParser.ts:132-143 | the in-place assignment and the two `delete`s leave the object holding the merged value |
| `ArgvObject.Argv.RunRegisteredChecks` | src/CommandLineParser.ts:56-62 | running the six checks on the object passes exactly when `Validate` succeeds, leaves its result in the object, and on failure reports `Validate`'s error with the object untouched |

`CliError.Message` gives the text of each `CLI_ERROR` member
(src/CommandLineParser.ts:65-78). Its text is cosmetic, so no property is
stated about it.

## Left out

- Token parsing of the process arguments, alias resolution, default values and the help and exit behaviour of the argument parser (src/CommandLineParser.ts:5-50): the parser is a separate library, and the model starts from the record it builds.
- `hasNoArgs` (src/CommandLineParser.ts:81-83) reads the process argument count. That count is the `noArgs` parameter.
- `fs.existsSync` is file-system I/O. It is the `existing` parameter, a fixed set of paths.
- The red terminal colouring of the messages: cosmetic.
- Exceptions as control flow: a throw is a `Fail` or `Failure` value, and the fold stops at the first one.
- Alias keys other than `F` (`V`, `u`, `o`, `nthumb`, `s`, `v`) and the parser's `_` and `$0`: no step reads or writes them. In particular, `V` keeps its old value after the merge.
- Non-string elements of `videoUrls` (yargs turns a numeric token into a number): `as string` on line 119 converts nothing, so a non-string element 0 makes line 120 throw a TypeError, which is none of the five errors. The model types the list as strings and does not capture that crash.
- CliOptions.Substring: indices count characters (Unicode scalar values), not UTF-16 code units as JavaScript's `length` and `substring` do, so the result differs from JavaScript on strings holding characters outside the Basic Multilingual Plane. The `.txt` test on line 120 gives the same answer either way, since `.`, `t` and `x` are one code unit each.
