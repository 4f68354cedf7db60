# Il2Cpp assembly generator: driver, stale-file bookkeeping and dumper package

This project models the part of MelonLoader's Il2Cpp assembly generator that
decides whether the game's proxy assemblies must be regenerated and that
carries out a regeneration. It also models the dumper package (Cpp2IL) that
the generator runs first.

- **`Core.Run`** sets up five packages, stopping at the first failure among
  the dumper, Il2CppInterop, Unity dependencies and the deobfuscation map. It
  then compares the stored hash of `GameAssembly` with the current one, and
  honours the force-regeneration flag. When generation is needed, it:
  1. cleans up the dumper and the converter;
  2. runs the dumper, then the converter, cleaning up after a failure;
  3. deletes the files recorded by the previous run (`OldFiles_Cleanup`);
  4. moves the converter's output in and records the file names
     (`OldFiles_LAM`, which saves the configuration);
  5. cleans up again, saves the deobfuscation regex, stores the new hash and
     saves the configuration.
- **The Cpp2IL package** chooses its version in this order: the forced
  version, then the remotely advertised one (release builds only), then the
  hard-coded fallback. From the version it builds its download URL and local
  paths; off Windows it strips `.zip` and `.exe` from them. It picks one of
  two fixed command lines by comparing its version with `2022.0.999` under
  Semantic Versioning precedence.

How the model is built:

- **Files** (`core.dfy`, module `Core`):
  - The generator's static state is the class `Generator`.
  - `Config.Values` is the class `Config`, with a ghost snapshot of what
    `Config.Save` last wrote.
  - The assemblies directory and the converter's output folder are maps
    from file name to contents.
  - `OldFiles_Cleanup` and `OldFiles_LAM` are loops over those maps and the
    `OldFiles` sequence.
- **Packages:**
  - The other four packages are not part of this model. Each package is an
    object whose `Setup` and `Execute` answers are fixed inputs.
  - Every package call and every configuration save is appended to a ghost
    trace.
- **The run:** `Generator.Run` is proved to produce exactly what the function
  `RunSpec` gives: the exit code, the new state and the trace. The properties
  of a run are lemmas about `RunSpec` (`core_properties.dfy`).
- **Cpp2IL** (`cpp2il.dfy`, module `Packages`):
  - The constructor is imperative.
  - `ShouldSetup` and `Execute` are functions of the object.
  - The process launcher is a function parameter.
- **Helpers:**
  - `semver.dfy` holds a Semantic Versioning 2.0.0 parser, formatter and
    section 11 precedence order.
  - `strings.dfy` holds the string operations they need. Among them is
    `RemoveAll`, the one-pass `String.Replace(p, "")` of .NET.

Things the model takes as inputs:

- the hash of the game binary;
- what the converter leaves in its output folder;
- the order in which `Directory.GetFiles` lists that folder (any order that
  names each file once);
- the platform, the `DEBUG` build symbol, the forced and remote versions,
  the base directory, the debug switch, the directory names and the process
  name.

A null string is modelled as the empty string. Every test the code applies to
these strings is `string.IsNullOrEmpty` ahead of `Equals`, which treats the
two alike.

Every package has a `Save`. On success, `Run` itself saves only the
deobfuscation regex, assigns the hash and calls `Config.Save`
(Core.cs:115-124). It calls no other package's `Save` directly. Whether a
package's `Setup` calls its own `Save` is up to the `ExecutablePackage` base
class, which is not part of this model. In the model, `Setup` only records
the call.

## Model

| member | source | states |
|---|---|---|
| Core.Generator.constructor | Dependencies/Il2CppAssemblyGenerator/Core.cs:38 | `AssemblyGenerationNeeded` starts as the force-regeneration flag |
| Core.Generator.Run | Dependencies/Il2CppAssemblyGenerator/Core.cs:56-127 | exit code, new hash, `OldFiles`, saved configuration, both directories and the sequence of package calls are exactly those of `RunSpec` |
| Core.RunSpec | Dependencies/Il2CppAssemblyGenerator/Core.cs:75-126 | every run answers 0 or 1 and starts with the setup calls; a failing run keeps the stored state, except that the generation-needed flag may be set; the persisted configuration is either untouched or records the current hash with the emitted listing |
| Core.GenerateSpec | Dependencies/Il2CppAssemblyGenerator/Core.cs:99-126 | the regeneration branch first cleans both packages and runs the dumper; it answers 0 iff both executions succeed; on failure it answers 1 and changes nothing; on success it stores the current hash, sets `OldFiles` to the listing and saves both |
| Core.HashChanged | Dependencies/Il2CppAssemblyGenerator/Core.cs:88-89 | an empty stored hash always counts as a change; against a non-empty current hash, a change is exactly a difference; no change means the stored hash is the current one |
| Core.Generator.SetupPackages | Dependencies/Il2CppAssemblyGenerator/Core.cs:75-81 | succeeds iff the first four setups succeed; calls them in order up to the first failure, then the regex setup, whose answer is dropped |
| Core.Generator.Convert | Dependencies/Il2CppAssemblyGenerator/Core.cs:99-113 | cleans both packages, runs the dumper, then the converter only if the dumper succeeded; cleans the dumper, or both, after a failure; succeeds iff both did |
| Core.Generator.Migrate | Dependencies/Il2CppAssemblyGenerator/Core.cs:115-124 | after a successful conversion: purge then promote, clean both packages, save the regex, store the current hash and save it with the new file list |
| Core.Generator.Generate | Dependencies/Il2CppAssemblyGenerator/Core.cs:99-126 | the regeneration branch computes `GenerateSpec`: 1 with only the cleanup calls after a failure, otherwise 0 with the migrated state |
| Core.Generator.OldFilesCleanup | Dependencies/Il2CppAssemblyGenerator/Core.cs:129-144 | `OldFiles` becomes empty and the target directory loses exactly the recorded names |
| Core.Generator.MoveFile | Dependencies/Il2CppAssemblyGenerator/Core.cs:152-160 | the name is appended to `OldFiles`, the file replaces any same-named target file and leaves the output folder |
| Core.Generator.OldFilesLam | Dependencies/Il2CppAssemblyGenerator/Core.cs:146-163 | every listed file is moved in, overwriting; the output folder loses them; their names are appended in listing order; the configuration is saved with the old hash |
| Core.Generator.Finalize | Dependencies/Il2CppAssemblyGenerator/Core.cs:118-124 | after purge and move: both packages cleaned, the regex saved, the current hash stored, and the configuration saved with it and the unchanged `OldFiles` |
| Core.Config.Save | Dependencies/Il2CppAssemblyGenerator/Core.cs:124 | the persisted snapshot becomes the current hash and `OldFiles` |
| CoreProperties.PurgedContents | Dependencies/Il2CppAssemblyGenerator/Core.cs:133-143 | no recorded name is left in the target directory and every other file keeps its contents |
| CoreProperties.PromotedContents | Dependencies/Il2CppAssemblyGenerator/Core.cs:150-161 | every output file is in the target with the output's contents, other target files are untouched, the output folder ends empty |
| CoreProperties.MigrationLaw | Dependencies/Il2CppAssemblyGenerator/Core.cs:115-116 | after purge and promote, `OldFiles` equals the emitted names in listing order, previously recorded files are gone unless re-emitted, unrelated files are untouched, nothing else is in the target |
| CoreProperties.InterruptedMigrationRegenerates | Dependencies/Il2CppAssemblyGenerator/Core.cs:155-162 | the configuration saved by `OldFiles_LAM` still has the previous hash and lists the new files, so a run stopped before the final save regenerates |
| CoreProperties.SetupFailureAborts | Dependencies/Il2CppAssemblyGenerator/Core.cs:75-79 | a failing setup gives 1 and an unchanged state; the calls are exactly the setups up to and including the failing one, so no later setup, no regex setup, no cleanup, no execute and no save |
| CoreProperties.RegexSetupIgnored | Dependencies/Il2CppAssemblyGenerator/Core.cs:81 | the regex setup's answer never changes the outcome, and it is called whenever the first four setups succeed |
| CoreProperties.GenerationNeededIff | Dependencies/Il2CppAssemblyGenerator/Core.cs:88-92 | once set up, generation happens iff forced, or the stored hash is empty, or it differs from the current hash |
| CoreProperties.UpToDate | Dependencies/Il2CppAssemblyGenerator/Core.cs:92-96 | an up-to-date run returns 0, makes no cleanup or execute call and changes nothing |
| CoreProperties.DumperFailure | Dependencies/Il2CppAssemblyGenerator/Core.cs:102-106 | a failing dumper gives 1, the converter is never run, the dumper is cleaned last, the stored state is unchanged |
| CoreProperties.ConverterFailure | Dependencies/Il2CppAssemblyGenerator/Core.cs:108-113 | a failing converter gives 1, both packages are cleaned last, nothing is migrated or saved, the stored state is unchanged |
| CoreProperties.FailureChangesNothing | Dependencies/Il2CppAssemblyGenerator/Core.cs:75-113 | the code is always 0 or 1; with 1, only the generation-needed flag may have changed |
| CoreProperties.SuccessRecordsHash | Dependencies/Il2CppAssemblyGenerator/Core.cs:115-126 | a run returning 0 leaves the current hash stored; after a regeneration the last call is a save recording that hash and the emitted names |
| CoreProperties.SecondRunUpToDate | Dependencies/Il2CppAssemblyGenerator/Core.cs:88-96 | after a successful run, a new unforced run on the same binary returns 0, executes nothing and changes nothing, provided the hash is non-empty |
| CoreProperties.ExecutionOrder | Dependencies/Il2CppAssemblyGenerator/Core.cs:99-108 | the converter runs only after the dumper ran and succeeded; the dumper runs only after both packages were cleaned |
| Packages.ReleaseName | Dependencies/Il2CppAssemblyGenerator/Packages/Cpp2IL.cs:12-13 | every build name is non-empty and contains no `.`, so stripping `.zip` off Windows never touches it |
| Packages.ReleaseNamesDistinct | Dependencies/Il2CppAssemblyGenerator/Packages/Cpp2IL.cs:12-13 | each platform downloads a build of its own: equal build names mean equal platforms |
| Packages.PathCombineJoins | Dependencies/Il2CppAssemblyGenerator/Packages/Cpp2IL.cs:25-32 | `Path.Combine` joins with exactly one separator: the first part, the separator it already ends in or an added one, then the second part; an empty first part gives the second part alone |
| Packages.ResolveVersion | Dependencies/Il2CppAssemblyGenerator/Packages/Cpp2IL.cs:16-22 | the settled version is usable and is the forced, the remote or the fallback version |
| Packages.FirstUsable | Dependencies/Il2CppAssemblyGenerator/Packages/Cpp2IL.cs:16-22 | the result is usable and is the first usable candidate |
| Packages.VersionPrecedence | Dependencies/Il2CppAssemblyGenerator/Packages/Cpp2IL.cs:16-22 | the resolved version is never empty nor `0.0.0.0`; the forced one wins, then the remote one outside DEBUG builds, then `2022.1.0-pre-release.10` |
| Packages.Cpp2IL.constructor | Dependencies/Il2CppAssemblyGenerator/Packages/Cpp2IL.cs:14-40 | the version is the resolved one; destination, output folder, URL, executable and archive paths are built from it, and off Windows `.zip`/`.exe` are removed from URL and paths |
| Packages.Cpp2IL.StripExtensions | Dependencies/Il2CppAssemblyGenerator/Packages/Cpp2IL.cs:37-39 | every `.zip` is removed from URL and archive path and every `.exe` from the executable path, in one left-to-right pass each |
| Packages.Cpp2IL.ShouldSetup | Dependencies/Il2CppAssemblyGenerator/Packages/Cpp2IL.cs:42-44 | no new setup only when the recorded dumper version is the package's own; since the package's version is never empty, set up again iff the record differs |
| Packages.Cpp2IL.Cleanup | Dependencies/Il2CppAssemblyGenerator/Packages/Cpp2IL.cs:46-47 | changes nothing |
| Packages.Cpp2IL.Execute | Dependencies/Il2CppAssemblyGenerator/Packages/Cpp2IL.cs:52-63 | fails to parse exactly when the version is not a semantic version; otherwise returns the launcher's answer for the command line the version gate selects |
| Packages.NewArguments | Dependencies/Il2CppAssemblyGenerator/Packages/Cpp2IL.cs:67-76 | the current command line has nine slots with the verbose slot first; it asks for the attribute-injector processor and dummy-DLL output and does not skip analysis |
| Packages.OldArguments | Dependencies/Il2CppAssemblyGenerator/Packages/Cpp2IL.cs:88-96 | the legacy command line has eight slots with the verbose slot first; it skips analysis and the registration prompt and names no processor or output format |
| Packages.DumperInvocation | Dependencies/Il2CppAssemblyGenerator/Packages/Cpp2IL.cs:56-62 | the gate always picks one of the two command lines, always with `NO_COLOR=1` and without streaming |
| Packages.ExecuteNew | Dependencies/Il2CppAssemblyGenerator/Packages/Cpp2IL.cs:65-84 | success is exactly the launcher's success on the current argument list, not streaming, with `NO_COLOR=1` |
| Packages.ExecuteOld | Dependencies/Il2CppAssemblyGenerator/Packages/Cpp2IL.cs:86-105 | success is exactly the launcher's success on the legacy argument list, not streaming, with `NO_COLOR=1` |
| Packages.ThresholdParses | Dependencies/Il2CppAssemblyGenerator/Packages/Cpp2IL.cs:56 | `2022.0.999` parses to the release 2022.0.999 |
| Packages.GateChoosesLegacyIff | Dependencies/Il2CppAssemblyGenerator/Packages/Cpp2IL.cs:56-62 | the legacy command line is chosen iff the version is at or below the threshold, and the new one iff above |
| Packages.GateBoundary | Dependencies/Il2CppAssemblyGenerator/Packages/Cpp2IL.cs:56-62 | exactly `2022.0.999` goes legacy; `2022.0.1000` goes new |
| Packages.FallbackRunsNew | Dependencies/Il2CppAssemblyGenerator/Packages/Cpp2IL.cs:56-61 | the fallback `2022.1.0-pre-release.10` parses, ranks above the threshold and runs the new command line |
| Packages.CommandLineShape | Dependencies/Il2CppAssemblyGenerator/Packages/Cpp2IL.cs:65-105 | 9 and 8 arguments; `--verbose` or empty first; the quoted `Fix` or game-assembly directory as game path; the quoted process name; each list's own tail; `NO_COLOR=1`; not streaming |
| Packages.UrlOffWindows | Dependencies/Il2CppAssemblyGenerator/Packages/Cpp2IL.cs:28-37 | off Windows, for a version without `.zip`, the URL is the release URL embedding the version twice, without its extension |
| Packages.ExePathOffWindows | Dependencies/Il2CppAssemblyGenerator/Packages/Cpp2IL.cs:30-38 | off Windows, for a base path without `.exe`, the executable path is the destination combined with `Cpp2IL` |
| Packages.ArchivePathOffWindows | Dependencies/Il2CppAssemblyGenerator/Packages/Cpp2IL.cs:32-39 | off Windows, for a base path and version without `.zip`, the archive path is the base combined with `Cpp2IL_<version>` |
| SemVer.Parse | Dependencies/Il2CppAssemblyGenerator/Packages/Cpp2IL.cs:56 | a parsed version is well formed |
| SemVer.ParseFormat | Dependencies/Il2CppAssemblyGenerator/Packages/Cpp2IL.cs:56 | every well-formed version parses back from its text |
| SemVer.FormatParse | Dependencies/Il2CppAssemblyGenerator/Packages/Cpp2IL.cs:56 | every text that parses is exactly the text of its parse |
| SemVer.Compare | Dependencies/Il2CppAssemblyGenerator/Packages/Cpp2IL.cs:56 | major, then minor, then patch decide precedence as soon as one of them differs, the smaller ranking lower |
| SemVer.LessOrEqual | Dependencies/Il2CppAssemblyGenerator/Packages/Cpp2IL.cs:56 | `a <= b` holds exactly when `b` does not rank below `a`, and it holds between any two versions of equal precedence |
| SemVer.CompareRange | Dependencies/Il2CppAssemblyGenerator/Packages/Cpp2IL.cs:56 | the comparison answers -1, 0 or 1 |
| SemVer.CompareAntisymmetric | Dependencies/Il2CppAssemblyGenerator/Packages/Cpp2IL.cs:56 | swapping the arguments negates the comparison |
| SemVer.CompareTransitive | Dependencies/Il2CppAssemblyGenerator/Packages/Cpp2IL.cs:56 | `<=` is transitive |
| SemVer.CompareZero | Dependencies/Il2CppAssemblyGenerator/Packages/Cpp2IL.cs:56 | two versions compare equal iff they agree on everything but build metadata |
| SemVer.PreReleaseBelowRelease | Dependencies/Il2CppAssemblyGenerator/Packages/Cpp2IL.cs:56 | a pre-release ranks below the release of the same major, minor and patch |
| SemVer.BuildIgnored | Dependencies/Il2CppAssemblyGenerator/Packages/Cpp2IL.cs:56 | build metadata never affects precedence |
| SemVer.CompareText | Dependencies/Il2CppAssemblyGenerator/Packages/Cpp2IL.cs:56 | ASCII order of alphanumeric identifiers: -1, 0 or 1, and 0 iff equal |
| SemVer.CompareIdentifiers | Dependencies/Il2CppAssemblyGenerator/Packages/Cpp2IL.cs:56 | pre-release fields compared left to right, shorter list lower when a prefix: -1, 0 or 1, and 0 iff equal |
| Strings.RemoveAllAbsent | Dependencies/Il2CppAssemblyGenerator/Packages/Cpp2IL.cs:37-39 | a text without the pattern is left as is |
| Strings.RemoveAllConcat | Dependencies/Il2CppAssemblyGenerator/Packages/Cpp2IL.cs:37-39 | removal distributes over a concatenation whose seam cannot be inside a match |
| Strings.RemoveAllBorderlessSuffix | Dependencies/Il2CppAssemblyGenerator/Packages/Cpp2IL.cs:37-39 | removing an extension with no self-overlap from text that ends in it drops that final copy |
| Strings.RemoveAllSinglePass | Dependencies/Il2CppAssemblyGenerator/Packages/Cpp2IL.cs:37-39 | a single pass can leave a match behind: `.z.zipip` becomes `.zip` |

## Left out

- `OnInitialize`, `CopyDataCpp2IL` and `DirectoryCopy` (Core.cs:31-54, 165-288). They stage deployment files, set up the HTTP client and look up paths. Their results are the model's inputs.
- `Config.Initialize`, `RemoteAPI.Contact` and offline mode (Core.cs:58-62). `Run` starts from the loaded configuration; the remote dumper version is an input to the Cpp2IL constructor.
- Serialization of `Config.Save`. It is a ghost snapshot of the hash and `OldFiles`.
- `FileHandler.Hash`. The current hash is an input string.
- The other packages (`Il2CppInterop`, `UnityDependencies`, `DeobfuscationMap`, `DeobfuscationRegex`) and the `ExecutablePackage` base class are not part of this model. Their `Setup` and `Execute` are fixed boolean answers, and their `Cleanup` and `Save` are recorded calls. `Generator.Run` does not link the dumper's answer to `Packages.Cpp2IL.Execute`.
- The effect of the converter's own cleanup on its output folder. The folder holds exactly the emitted files after a successful conversion.
- `Cpp2IL.Save` (Cpp2IL.cs:49-50). `Run` does not call it directly. The base-class `Save` it delegates to, and whatever calls it from `Setup`, are not part of this model.
- Subprocess launch, exit codes, download and extraction. The launcher is a function parameter of `Packages.Cpp2IL.Execute`.
- Exceptions thrown out of `Run`, such as a missing output folder or an I/O error. The model has no exceptional exits. The one exception the dumper's gate can throw, a parse failure, is the `None` result of `Packages.Cpp2IL.Execute`.
- Logging (`Logger.Msg`, `MelonDebug.Msg`).
- `Directory.CreateDirectory` in `OldFiles_LAM`. A map needs no directory to exist.
- SemVer.Parse: accepts only strict Semantic Versioning 2.0.0 text. The `Semver` library's default parse is more lenient, and its source is not part of this model. The version can come from a launch option or the remote API, which reject only empty text and `0.0.0.0`. So text such as `2022.0` or `2022.01.0` can reach the gate, and the model answers it with a parse failure (`None` from `Packages.Cpp2IL.Execute`).
- SemVer.Parse: version numbers are unbounded naturals. The library keeps them in .NET `int` fields and throws on a component above `int.MaxValue`.
- SemVer.LessOrEqual: follows the precedence of sections 10 and 11 of Semantic Versioning 2.0.0, which ignores build metadata. The library's `<=` may also order by build metadata when everything else is equal. Only versions that differ in build metadata alone can be affected.
- File names are compared exactly: a `Directory` is a map keyed by the exact name. `File.Exists`, `File.Delete` and `File.Move` on a case-insensitive file system (the default on Windows) treat `Foo.dll` and `foo.dll` as one file. The model keeps them as two, so `Core.Generator.OldFilesCleanup`, `Core.Generator.MoveFile` and `CoreProperties.MigrationLaw` do not cover names that differ only in case.
- `Packages.PathCombine`: models `Path.Combine` only for a relative second argument, which every call here has. Rooted second arguments are not modelled.
- Packages.UrlOffWindows: stated only for a version without `.zip`. `String.Replace` also strips that text inside the version; the constructor's own contract states that general case with `RemoveAll`.
- Packages.ExePathOffWindows: stated only for a base path without `.exe`, for the same reason.
- Packages.ArchivePathOffWindows: stated only for a base path and version without `.zip`, for the same reason.
