/**
 * The dumper package (Cpp2IL): how its version is chosen, where it is
 * downloaded from and stored, when it must be set up again, and which of its
 * two command lines it is run with.
 *
 * The platform tests of `MelonUtils`, the `DEBUG` build symbol, the operator's
 * forced version, the version advertised remotely and the base directory are
 * inputs.  A null string is modelled as "", because every test applied to
 * these strings (`string.IsNullOrEmpty` ahead of `Equals`) treats the two alike.
 */
module Packages {
  import opened Wrappers
  import opened Strings
  import opened SemVer

  // ---------------------------------------------------------------------------
  // Platform and paths
  // ---------------------------------------------------------------------------

  datatype Platform = Windows | Unix | Mac

  /** The build the release page offers for a platform; no build name holds a '.' that stripping could touch. */
  function ReleaseName(platform: Platform): (r: string)
    ensures r != [] && '.' !in r
  {
    if platform == Windows then "Windows-Netframework472"
    else if platform == Unix then "Linux"
    else "OSX"
  }

  /** Each platform downloads its own build. */
  lemma ReleaseNamesDistinct(p: Platform, q: Platform)
    ensures ReleaseName(p) == ReleaseName(q) <==> p == q
  {
    if p != q {
      assert |ReleaseName(p)| != |ReleaseName(q)|;
    }
  }

  function Separator(platform: Platform): char {
    if platform == Windows then '\\' else '/'
  }

  predicate IsSeparator(platform: Platform, c: char) {
    c == '/' || (platform == Windows && c == '\\')
  }

  /**
   * `Path.Combine(a, b)` for a relative `b`, which every second argument
   * combined here is: `b` alone when `a` is empty, no separator added when `a`
   * already ends in one.
   */
  function PathCombine(platform: Platform, a: string, b: string): string {
    if a == [] then b
    else if IsSeparator(platform, a[|a| - 1]) then a + b
    else a + [Separator(platform)] + b
  }

  /**
   * `Path.Combine` joins with exactly one separator: `a`, then a separator
   * (the one `a` already ends in, or one added), then `b`; an empty `a`
   * leaves `b` alone.
   */
  lemma PathCombineJoins(platform: Platform, a: string, b: string)
    ensures var r := PathCombine(platform, a, b);
      && (a == [] ==> r == b)
      && (a != [] ==> && |a| + |b| <= |r| <= |a| + |b| + 1
                      && r[..|a|] == a && r[|r| - |b|..] == b
                      && IsSeparator(platform, r[|r| - |b| - 1]))
      && (a != [] && |r| == |a| + |b| + 1 ==> !IsSeparator(platform, a[|a| - 1]))
  {
  }

  // ---------------------------------------------------------------------------
  // Version resolution
  // ---------------------------------------------------------------------------

  const Name := "Cpp2IL"
  const Fallback := "2022.1.0-pre-release.10"

  /** A version string the constructor accepts without falling back further. */
  predicate Usable(v: string) { v != "" && v != "0.0.0.0" }

  /** The versions tried, in order; the remote one is skipped in a DEBUG build. */
  function Candidates(forced: string, remote: string, debugBuild: bool): seq<string> {
    [forced] + (if debugBuild then [] else [remote]) + [Fallback]
  }

  /** The first usable candidate. */
  function FirstUsable(cs: seq<string>): (r: string)
    requires |cs| > 0 && Usable(cs[|cs| - 1])
    ensures Usable(r)
    ensures exists k :: 0 <= k < |cs| && cs[k] == r && forall j :: 0 <= j < k ==> !Usable(cs[j])
  {
    if Usable(cs[0]) then cs[0]
    else
      var r := FirstUsable(cs[1..]);
      assert forall k :: 0 < k < |cs| ==> cs[1..][k - 1] == cs[k];
      r
  }

  /** The version the constructor settles on: usable, and one of the three sources. */
  function ResolveVersion(forced: string, remote: string, debugBuild: bool): (r: string)
    ensures Usable(r)
    ensures r == forced || r == remote || r == Fallback
  {
    FirstUsable(Candidates(forced, remote, debugBuild))
  }

  /** The version is never empty and never "0.0.0.0"; override, then remote, then fallback. */
  lemma VersionPrecedence(forced: string, remote: string, debugBuild: bool)
    ensures Usable(ResolveVersion(forced, remote, debugBuild))
    ensures Usable(forced) ==> ResolveVersion(forced, remote, debugBuild) == forced
    ensures !Usable(forced) && !debugBuild && Usable(remote) ==> ResolveVersion(forced, remote, debugBuild) == remote
    ensures !Usable(forced) && (debugBuild || !Usable(remote)) ==> ResolveVersion(forced, remote, debugBuild) == Fallback
  {
    var cs := Candidates(forced, remote, debugBuild);
    var r := ResolveVersion(forced, remote, debugBuild);
    var k :| 0 <= k < |cs| && cs[k] == r && forall j :: 0 <= j < k ==> !Usable(cs[j]);
    assert cs[0] == forced;
    if !debugBuild { assert cs[1] == remote; }
  }

  /** The constructor's two reassignments compute the resolved version. */
  lemma ResolveStepwise(forced: string, remote: string, debugBuild: bool)
    ensures var v := if !debugBuild && !Usable(forced) then remote else forced;
      ResolveVersion(forced, remote, debugBuild) == if Usable(v) then v else Fallback
  {
    VersionPrecedence(forced, remote, debugBuild);
  }

  // ---------------------------------------------------------------------------
  // Download URL and local paths, as built before any stripping
  // ---------------------------------------------------------------------------

  const UrlPrefix := "https://github.com/" + "SamboyCoding/" + Name + "/releases/download/"

  function DownloadUrl(version: string, platform: Platform): string {
    UrlPrefix + version + "/Cpp2IL-" + version + "-" + ReleaseName(platform) + ".zip"
  }

  function DestinationPath(platform: Platform, basePath: string): string {
    PathCombine(platform, basePath, Name)
  }

  function ExePath(platform: Platform, basePath: string): string {
    PathCombine(platform, DestinationPath(platform, basePath), Name + ".exe")
  }

  function ArchivePath(platform: Platform, basePath: string, version: string): string {
    PathCombine(platform, basePath, Name + "_" + version + ".zip")
  }

  // ---------------------------------------------------------------------------
  // Command lines
  // ---------------------------------------------------------------------------

  /** What `Execute` depends on besides the version: external paths and switches. */
  datatype Environment = Environment(
    debug: bool,              // MelonDebug.IsEnabled()
    fixParent: string,        // Path.GetDirectoryName(Core.FixFolder)
    gameAssemblyDir: string,  // Path.GetDirectoryName(Core.GameAssemblyPath)
    processName: string)      // Process.GetCurrentProcess().ProcessName

  /** One call of the package's process launcher: arguments, streaming flag, environment overrides. */
  datatype Invocation = Invocation(args: seq<string>, streaming: bool, env: map<string, string>)

  function VerboseFlag(debug: bool): string { if debug then "--verbose" else "" }

  function Quote(s: string): (r: string)
    ensures |r| == |s| + 2 && r[0] == '"' && r[|r| - 1] == '"'
  {
    "\"" + s + "\""
  }

  const NoColor: map<string, string> := map["NO_COLOR" := "1"]

  /** The current command line: nine slots, run through the attribute injector into dummy DLLs. */
  function NewArguments(e: Environment): (r: seq<string>)
    ensures |r| == 9 && r[0] == VerboseFlag(e.debug)
    ensures "--use-processor" in r && "--output-as" in r
    ensures "--skip-analysis" !in r
  {
    [VerboseFlag(e.debug), "--game-path", Quote(e.fixParent + "\\Fix"), "--exe-name", Quote(e.processName),
     "--use-processor", "attributeinjector", "--output-as", "dummydll"]
  }

  /** The legacy command line: eight slots, skipping analysis, metadata dumps and the registration prompt. */
  function OldArguments(e: Environment): (r: seq<string>)
    ensures |r| == 8 && r[0] == VerboseFlag(e.debug)
    ensures "--skip-analysis" in r && "--disable-registration-prompts" in r
    ensures "--use-processor" !in r && "--output-as" !in r
  {
    [VerboseFlag(e.debug), "--game-path", Quote(e.gameAssemblyDir), "--exe-name", Quote(e.processName),
     "--skip-analysis", "--skip-metadata-txts", "--disable-registration-prompts"]
  }

  function NewInvocation(e: Environment): Invocation { Invocation(NewArguments(e), false, NoColor) }

  function OldInvocation(e: Environment): Invocation { Invocation(OldArguments(e), false, NoColor) }

  /** The last version still run with the legacy command line. */
  const ThresholdText := "2022.0.999"
  const Threshold := SemVer.Version(2022, 0, 999, [], [])

  /** The version gate: at or below the threshold the legacy command line is used. */
  function DumperInvocation(v: SemVer.Version, e: Environment): (r: Invocation)
    ensures r == OldInvocation(e) || r == NewInvocation(e)
    ensures r.env == map["NO_COLOR" := "1"] && !r.streaming
  {
    if LessOrEqual(v, Threshold) then OldInvocation(e) else NewInvocation(e)
  }

  /** Success is exactly the launcher's success on the current command line, without streaming, colour off. */
  function ExecuteNew(e: Environment, run: Invocation -> bool): (r: bool)
    ensures r == run(Invocation(NewArguments(e), false, map["NO_COLOR" := "1"]))
  {
    run(NewInvocation(e))
  }

  /** Success is exactly the launcher's success on the legacy command line, without streaming, colour off. */
  function ExecuteOld(e: Environment, run: Invocation -> bool): (r: bool)
    ensures r == run(Invocation(OldArguments(e), false, map["NO_COLOR" := "1"]))
  {
    run(OldInvocation(e))
  }

  // ---------------------------------------------------------------------------
  // The package object
  // ---------------------------------------------------------------------------

  class Cpp2IL {
    var Version: string
    var Destination: string
    var OutputFolder: string
    var URL: string
    var ExeFilePath: string
    var FilePath: string

    ghost predicate Valid()
      reads this
    {
      Usable(Version)
    }

    /** Resolves the version through its fallbacks, then builds and, off Windows, strips the paths. */
    constructor (forced: string, remote: string, debugBuild: bool, platform: Platform, basePath: string)
      ensures Valid()
      ensures Version == ResolveVersion(forced, remote, debugBuild)
      ensures Destination == DestinationPath(platform, basePath)
      ensures OutputFolder == PathCombine(platform, Destination, "cpp2il_out")
      ensures platform == Windows ==>
        URL == DownloadUrl(Version, platform) && ExeFilePath == ExePath(platform, basePath)
        && FilePath == ArchivePath(platform, basePath, Version)
      ensures platform != Windows ==>
        URL == RemoveAll(DownloadUrl(Version, platform), ".zip")
        && ExeFilePath == RemoveAll(ExePath(platform, basePath), ".exe")
        && FilePath == RemoveAll(ArchivePath(platform, basePath, Version), ".zip")
    {
      new;
      Version := forced;
      if !debugBuild && !Usable(Version) {
        Version := remote;
      }
      if !Usable(Version) {
        Version := Fallback;
      }
      ResolveStepwise(forced, remote, debugBuild);
      Destination := PathCombine(platform, basePath, Name);
      OutputFolder := PathCombine(platform, Destination, "cpp2il_out");
      URL := DownloadUrl(Version, platform);
      ExeFilePath := PathCombine(platform, Destination, Name + ".exe");
      FilePath := PathCombine(platform, basePath, Name + "_" + Version + ".zip");
      if platform != Windows {
        StripExtensions();
      }
    }

    /** The non-Windows release has no archive or executable extensions. */
    method StripExtensions()
      modifies this`URL, this`ExeFilePath, this`FilePath
      ensures URL == RemoveAll(old(URL), ".zip")
      ensures ExeFilePath == RemoveAll(old(ExeFilePath), ".exe")
      ensures FilePath == RemoveAll(old(FilePath), ".zip")
    {
      URL := RemoveAll(URL, ".zip");
      ExeFilePath := RemoveAll(ExeFilePath, ".exe");
      FilePath := RemoveAll(FilePath, ".zip");
    }

    /** Set up again when no dumper version was recorded or a different one was. */
    function ShouldSetup(storedVersion: string): (r: bool)
      reads this
      ensures !r ==> storedVersion == Version
      ensures Valid() ==> (r <==> storedVersion != Version)
    {
      storedVersion == "" || storedVersion != Version
    }

    /** Cpp2IL keeps no working files of its own: cleaning up is a no-op. */
    method Cleanup()
      ensures unchanged(this)
    {
    }

    /**
     * Parses the version (`None` is the exception `SemVersion.Parse` throws on
     * malformed text) and runs the command line the version gate selects;
     * the result is exactly the launcher's.
     */
    function Execute(e: Environment, run: Invocation -> bool): (r: Option<bool>)
      reads this
      ensures r.None? <==> Parse(Version).None?
      ensures r.Some? ==> r.value == run(DumperInvocation(Parse(Version).value, e))
    {
      match Parse(Version)
      case None => None
      case Some(v) =>
        if LessOrEqual(v, Threshold) then Some(ExecuteOld(e, run)) else Some(ExecuteNew(e, run))
    }
  }

  // ---------------------------------------------------------------------------
  // Properties of the version gate and the command lines
  // ---------------------------------------------------------------------------

  lemma YearText()
    ensures NatToString(2022) == "2022"
  {
    assert NatToString(202) == "202";
  }

  lemma ThresholdFormat()
    ensures Format(Threshold) == ThresholdText
  {
    YearText();
    assert NatToString(999) == "999";
    assert FormatCore(2022, 0, 999) == Join(["2022", "0", "999"], '.');
  }

  lemma ThresholdParses()
    ensures Parse(ThresholdText) == Some(Threshold)
  {
    ThresholdFormat();
    ParseFormat(Threshold);
  }

  /** The two command lines differ, so the gate's choice can be read off the call. */
  lemma GateChoosesLegacyIff(v: SemVer.Version, e: Environment)
    ensures DumperInvocation(v, e) == OldInvocation(e) <==> LessOrEqual(v, Threshold)
    ensures DumperInvocation(v, e) == NewInvocation(e) <==> !LessOrEqual(v, Threshold)
  {
    assert |OldArguments(e)| != |NewArguments(e)|;
  }

  const OnePatchAbove := SemVer.Version(2022, 0, 1000, [], [])

  lemma OnePatchAboveParses()
    ensures Parse("2022.0.1000") == Some(OnePatchAbove)
  {
    YearText();
    assert NatToString(1000) == "1000";
    assert FormatCore(2022, 0, 1000) == Join(["2022", "0", "1000"], '.');
    assert Format(OnePatchAbove) == "2022.0.1000";
    ParseFormat(OnePatchAbove);
  }

  /** Exactly the threshold goes legacy; one patch above goes new. */
  lemma GateBoundary(e: Environment)
    ensures Parse(ThresholdText) == Some(Threshold) && DumperInvocation(Threshold, e) == OldInvocation(e)
    ensures Parse("2022.0.1000") == Some(OnePatchAbove) && DumperInvocation(OnePatchAbove, e) == NewInvocation(e)
  {
    ThresholdParses();
    OnePatchAboveParses();
    ThresholdAtMostItself();
    OnePatchAboveExceeds();
  }

  lemma ThresholdAtMostItself()
    ensures LessOrEqual(Threshold, Threshold)
  {
    CompareZero(Threshold, Threshold);
  }

  lemma OnePatchAboveExceeds()
    ensures !LessOrEqual(OnePatchAbove, Threshold)
  {
    assert CompareNat(1000, 999) == 1;
  }

  const FallbackVersion := SemVer.Version(2022, 1, 0, [Alphanumeric("pre-release"), Numeric(10)], [])

  lemma FallbackCoreText()
    ensures FormatCore(2022, 1, 0) == "2022.1.0"
  {
    YearText();
    assert FormatCore(2022, 1, 0) == Join(["2022", "1", "0"], '.');
  }

  lemma FallbackPreText()
    ensures PreSuffix(FallbackVersion.pre) == "-pre-release.10"
  {
    assert NatToString(10) == "10";
    assert Texts(FallbackVersion.pre) == ["pre-release", "10"];
    assert Join(["pre-release", "10"], '.') == "pre-release.10";
  }

  lemma FallbackText()
    ensures Format(FallbackVersion) == Fallback
  {
    FallbackCoreText();
    FallbackPreText();
    FallbackPieces();
  }

  lemma FallbackPieces()
    ensures Fallback == "2022.1.0" + "-pre-release.10"
  {
  }

  lemma FallbackWellFormed()
    ensures WellFormed(FallbackVersion)
  {
    assert ValidIdentifier(Alphanumeric("pre-release")) by {
      assert !IsDigit("pre-release"[0]);
    }
  }

  /** The hardcoded fallback ranks above the threshold, so by default the new command line is used. */
  lemma FallbackRunsNew(e: Environment)
    ensures Parse(Fallback).Some?
    ensures !LessOrEqual(Parse(Fallback).value, Threshold)
    ensures DumperInvocation(Parse(Fallback).value, e) == NewInvocation(e)
  {
    FallbackText();
    FallbackWellFormed();
    ParseFormat(FallbackVersion);
    assert !LessOrEqual(FallbackVersion, Threshold);
  }

  /** The shape both command lines share: verbose slot first, fixed length, no colour, no streaming. */
  lemma CommandLineShape(e: Environment)
    ensures |NewArguments(e)| == 9 && |OldArguments(e)| == 8
    ensures NewArguments(e)[0] == OldArguments(e)[0] == (if e.debug then "--verbose" else "")
    ensures NewArguments(e)[1] == OldArguments(e)[1] == "--game-path"
    ensures NewArguments(e)[2] == "\"" + e.fixParent + "\\Fix\"" && OldArguments(e)[2] == "\"" + e.gameAssemblyDir + "\""
    ensures NewArguments(e)[3..5] == OldArguments(e)[3..5] == ["--exe-name", "\"" + e.processName + "\""]
    ensures NewArguments(e)[5..] == ["--use-processor", "attributeinjector", "--output-as", "dummydll"]
    ensures OldArguments(e)[5..] == ["--skip-analysis", "--skip-metadata-txts", "--disable-registration-prompts"]
    ensures NewInvocation(e).env == OldInvocation(e).env == map["NO_COLOR" := "1"]
    ensures !NewInvocation(e).streaming && !OldInvocation(e).streaming
  {
  }

  // ---------------------------------------------------------------------------
  // Off Windows the extensions are stripped: what is left of URL and paths
  // ---------------------------------------------------------------------------

  lemma ExtensionsBorderless()
    ensures Borderless(".zip") && Borderless(".exe")
  {
    forall p, m | p in [".zip", ".exe"] && 0 < m < |p| ensures p[m..] != p[..|p| - m] {
      assert p[m..][0] == p[m] != '.' == p[..|p| - m][0];
    }
  }

  lemma CombineAppend(platform: Platform, a: string, b: string, ext: string)
    ensures PathCombine(platform, a, b + ext) == PathCombine(platform, a, b) + ext
  {
    if a == [] {
    } else if IsSeparator(platform, a[|a| - 1]) {
      assert a + (b + ext) == (a + b) + ext;
    } else {
      assert a + [Separator(platform)] + (b + ext) == (a + [Separator(platform)] + b) + ext;
    }
  }

  lemma NoZInUrlPrefix()
    ensures 'z' !in UrlPrefix
  {
    assert 'z' !in "https://github.com/";
    assert 'z' !in "SamboyCoding/";
    assert 'z' !in Name;
    assert 'z' !in "/releases/download/";
  }

  /** Combining two strings the pass leaves alone gives a third one it leaves alone. */
  lemma CombineFixed(platform: Platform, a: string, b: string, p: string)
    requires |p| > 0 && Separator(platform) !in p
    requires RemoveAll(a, p) == a && RemoveAll(b, p) == b
    requires b != [] && b[0] !in p
    ensures RemoveAll(PathCombine(platform, a, b), p) == PathCombine(platform, a, b)
  {
    if a != [] && !IsSeparator(platform, a[|a| - 1]) {
      var sep := [Separator(platform)];
      RemoveAllConcat(a, sep, p);
      assert RemoveAll(sep, p) == sep;
      RemoveAllConcat(a + sep, b, p);
    } else if a != [] {
      RemoveAllConcat(a, b, p);
    }
  }

  /** With no ".zip" inside the version, only the archive extension leaves the URL. */
  lemma UrlOffWindows(version: string, platform: Platform)
    requires platform != Windows && NoMatch(version, ".zip")
    ensures RemoveAll(DownloadUrl(version, platform), ".zip")
         == UrlPrefix + version + "/Cpp2IL-" + version + "-" + ReleaseName(platform)
  {
    var p := ".zip";
    var s5 := UrlPrefix + version + "/Cpp2IL-" + version + "-" + ReleaseName(platform);
    UrlStemFixed(version, ReleaseName(platform));
    ExtensionsBorderless();
    assert DownloadUrl(version, platform) == s5 + p;
    RemoveAllBorderlessSuffix(s5, p);
  }

  /** The URL up to the second copy of the version has no ".zip" to remove. */
  lemma UrlHeadFixed(version: string)
    requires NoMatch(version, ".zip")
    ensures var head := UrlPrefix + version + "/Cpp2IL-" + version;
      RemoveAll(head, ".zip") == head
  {
    var p := ".zip";
    var s1 := UrlPrefix + version;
    var s2 := s1 + "/Cpp2IL-";
    NoZInUrlPrefix();
    MissingCharNoOccurrence(UrlPrefix, p, 1);
    RemoveAllAbsent(UrlPrefix, p);
    RemoveAllAbsent(version, p);
    MissingCharNoOccurrence("/Cpp2IL-", p, 1);
    RemoveAllAbsent("/Cpp2IL-", p);
    RemoveAllConcat(UrlPrefix, version, p);
    RemoveAllConcat(s1, "/Cpp2IL-", p);
    RemoveAllConcat(s2, version, p);
  }

  /** The URL without its extension, for any build name without a '.', has no ".zip" left to remove. */
  lemma UrlStemFixed(version: string, rn: string)
    requires NoMatch(version, ".zip") && '.' !in rn
    ensures var stem := UrlPrefix + version + "/Cpp2IL-" + version + "-" + rn;
      RemoveAll(stem, ".zip") == stem
  {
    var p := ".zip";
    var s3 := UrlPrefix + version + "/Cpp2IL-" + version;
    UrlHeadFixed(version);
    MissingCharNoOccurrence(rn, p, 0);
    RemoveAllAbsent(rn, p);
    RemoveAllConcat(s3, "-", p);
    RemoveAllConcat(s3 + "-", rn, p);
  }

  /** With no ".exe" in the base path, the executable path loses exactly its extension. */
  lemma ExePathOffWindows(platform: Platform, basePath: string)
    requires platform != Windows && NoMatch(basePath, ".exe")
    ensures RemoveAll(ExePath(platform, basePath), ".exe")
         == PathCombine(platform, DestinationPath(platform, basePath), Name)
  {
    var p := ".exe";
    ExtensionsBorderless();
    RemoveAllAbsent(basePath, p);
    MissingCharNoOccurrence(Name, p, 0);
    RemoveAllAbsent(Name, p);
    CombineFixed(platform, basePath, Name, p);
    var dest := DestinationPath(platform, basePath);
    CombineFixed(platform, dest, Name, p);
    CombineAppend(platform, dest, Name, p);
    RemoveAllBorderlessSuffix(PathCombine(platform, dest, Name), p);
  }

  /** With no ".zip" in the base path or the version, the archive path loses exactly its extension. */
  lemma ArchivePathOffWindows(platform: Platform, basePath: string, version: string)
    requires platform != Windows && NoMatch(basePath, ".zip") && NoMatch(version, ".zip")
    ensures RemoveAll(ArchivePath(platform, basePath, version), ".zip")
         == PathCombine(platform, basePath, Name + "_" + version)
  {
    var p := ".zip";
    ExtensionsBorderless();
    RemoveAllAbsent(basePath, p);
    RemoveAllAbsent(version, p);
    MissingCharNoOccurrence(Name + "_", p, 1);
    RemoveAllAbsent(Name + "_", p);
    RemoveAllConcat(Name + "_", version, p);
    var file := Name + "_" + version;
    CombineFixed(platform, basePath, file, p);
    CombineAppend(platform, basePath, file, p);
    RemoveAllBorderlessSuffix(PathCombine(platform, basePath, file), p);
  }
}
