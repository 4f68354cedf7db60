/**
 * The assembly generator's driver (`Core.Run`) and its stale-file
 * bookkeeping (`OldFiles_Cleanup`, `OldFiles_LAM`).
 *
 * The five packages are objects whose `Setup` and `Execute` answers are fixed
 * inputs (oracles); every package operation is recorded in a ghost trace so
 * that orderings and "never called" facts can be stated.  The target
 * assemblies directory and the converter's output folder are maps from file
 * name to contents; `Config.Values` is an object with the stored hash and the
 * list of files to purge next time, and `Config.Save` records a ghost snapshot
 * of what was written.
 *
 * `RunSpec` states the whole effect of one run as a function of the starting
 * state and the oracles; `Generator.Run` is the step-by-step method and is
 * proved to compute exactly `RunSpec`.
 */
module Core {

  type Bytes = seq<bv8>

  /** A directory: file name to file contents. */
  type Directory = map<string, Bytes>

  datatype PackageId = Dumper | Il2CppInterop | UnityDependencies | DeobfuscationMap | DeobfuscationRegex

  /** One observable step of a run. */
  datatype Event =
    | SetupCalled(p: PackageId)
    | ExecuteCalled(p: PackageId)
    | CleanupCalled(p: PackageId)
    | SaveCalled(p: PackageId)
    | ConfigSaved

  /** The part of `Config.Values` this core reads and writes, as last written to disk. */
  datatype Settings = Settings(hash: string, oldFiles: seq<string>)

  // ---------------------------------------------------------------------------
  // Directory bookkeeping, in closed form
  // ---------------------------------------------------------------------------

  function NameSet(names: seq<string>): set<string> {
    set n | n in names
  }

  /** `names` lists every file of `dir` once: what `Directory.GetFiles` returns, in its order. */
  predicate IsListing(names: seq<string>, dir: Directory) {
    && (forall i, j :: 0 <= i < j < |names| ==> names[i] != names[j])
    && NameSet(names) == dir.Keys
  }

  /** The target directory once every recorded name has been deleted from it. */
  function Purged(target: Directory, names: seq<string>): Directory {
    target - NameSet(names)
  }

  /** The target directory once every listed output file has been moved into it, overwriting. */
  function Promoted(target: Directory, output: Directory, names: seq<string>): Directory {
    target + map n | n in names && n in output :: output[n]
  }

  /** The `i`-th listed name is a file of the directory that the listing has not named before. */
  lemma ListingStep(names: seq<string>, dir: Directory, i: nat)
    requires IsListing(names, dir) && i < |names|
    ensures names[i] in dir && names[i] !in NameSet(names[..i])
  {
    assert names[i] in NameSet(names);
    forall m | m in names[..i]
      ensures m != names[i]
    {
      var k :| 0 <= k < i && names[..i][k] == m;
      assert names[k] == m;
    }
  }

  lemma NameSetSnoc(names: seq<string>, n: string)
    ensures NameSet(names + [n]) == NameSet(names) + {n}
  {
    assert forall m :: m in names + [n] <==> m in names || m == n;
  }

  lemma PromotedSnoc(target: Directory, output: Directory, names: seq<string>, n: string)
    requires n in output
    ensures Promoted(target, output, names + [n]) == Promoted(target, output, names)[n := output[n]]
  {
    var a := Promoted(target, output, names + [n]);
    var b := Promoted(target, output, names)[n := output[n]];
    assert forall m :: m in names + [n] <==> m in names || m == n;
    assert a.Keys == b.Keys;
    assert forall m :: m in a ==> a[m] == b[m];
  }

  /** One more listed file moved: the closed forms advance by that file. */
  lemma Advance(names: seq<string>, i: nat, target: Directory, output: Directory)
    requires i < |names| && names[i] in output
    ensures Promoted(target, output, names[..i + 1]) == Promoted(target, output, names[..i])[names[i] := output[names[i]]]
    ensures output - NameSet(names[..i + 1]) == (output - NameSet(names[..i])) - {names[i]}
  {
    assert names[..i + 1] == names[..i] + [names[i]];
    NameSetSnoc(names[..i], names[i]);
    PromotedSnoc(target, output, names[..i], names[i]);
  }

  /**
   * `string.IsNullOrEmpty(stored) || !stored.Equals(current)`: a missing record
   * always counts as a change; against a real hash, a change is a difference.
   */
  function HashChanged(stored: string, current: string): (r: bool)
    ensures stored == "" ==> r
    ensures current != "" ==> (r <==> stored != current)
    ensures !r ==> stored == current
  {
    stored == "" || stored != current
  }

  // ---------------------------------------------------------------------------
  // The whole run as a function of the state and the oracles
  // ---------------------------------------------------------------------------

  /** Everything `Run` can change. */
  datatype World = World(
    needed: bool,              // Core.AssemblyGenerationNeeded
    hash: string,              // Config.Values.GameAssemblyHash
    oldFiles: seq<string>,     // Config.Values.OldFiles
    saved: Settings,           // what Config.Save last wrote
    assemblies: Directory,     // the Il2Cpp assemblies directory
    output: Directory)         // the converter's output folder

  /** What the environment answers during a run. */
  datatype Oracle = Oracle(
    dumperSetup: bool, interopSetup: bool, unitySetup: bool, mapSetup: bool, regexSetup: bool,
    dumperExecute: bool, interopExecute: bool,
    currentHash: string,       // FileHandler.Hash(GameAssemblyPath)
    emitted: Directory,        // what a successful converter run leaves in its output folder
    listing: seq<string>)      // the order Directory.GetFiles lists that folder in

  datatype Outcome = Outcome(code: int, world: World, events: seq<Event>)

  const SetupChain := [SetupCalled(Dumper), SetupCalled(Il2CppInterop), SetupCalled(UnityDependencies),
                       SetupCalled(DeobfuscationMap)]

  /** Effect of `OldFiles_Cleanup` on the world. */
  function PurgeStep(w: World): World {
    w.(assemblies := Purged(w.assemblies, w.oldFiles), oldFiles := [])
  }

  /** Effect of `OldFiles_LAM` on the world, its final `Config.Save` included. */
  function PromoteStep(w: World, listing: seq<string>): World {
    var oldFiles := w.oldFiles + listing;
    w.(assemblies := Promoted(w.assemblies, w.output, listing),
       output := w.output - NameSet(listing),
       oldFiles := oldFiles,
       saved := Settings(w.hash, oldFiles))
  }

  /** The four setups that abort the run all succeeded. */
  predicate SetupsPass(o: Oracle) {
    o.dumperSetup && o.interopSetup && o.unitySetup && o.mapSetup
  }

  /** The setups that are called: up to the first failing one, and then the regex package's. */
  function SetupCalls(dumperOk: bool, interopOk: bool, unityOk: bool, mapOk: bool): seq<Event> {
    if !dumperOk then SetupChain[..1]
    else if !interopOk then SetupChain[..2]
    else if !unityOk then SetupChain[..3]
    else if !mapOk then SetupChain
    else SetupChain + [SetupCalled(DeobfuscationRegex)]
  }

  function SetupTrace(o: Oracle): seq<Event> {
    SetupCalls(o.dumperSetup, o.interopSetup, o.unitySetup, o.mapSetup)
  }

  /** Dump, convert and migrate, from the point where generation is known to be needed. */
  const DumpTrace := [CleanupCalled(Dumper), CleanupCalled(Il2CppInterop), ExecuteCalled(Dumper)]
  const ConvertTrace := DumpTrace + [ExecuteCalled(Il2CppInterop)]
  const MigrateTrace := [ConfigSaved, CleanupCalled(Dumper), CleanupCalled(Il2CppInterop),
                         SaveCalled(DeobfuscationRegex), ConfigSaved]

  /** The calls made while dumping and converting, failure cleanups included. */
  function ConvertEvents(dumperOk: bool, interopOk: bool): seq<Event> {
    if !dumperOk then DumpTrace + [CleanupCalled(Dumper)]
    else if !interopOk then ConvertTrace + [CleanupCalled(Dumper), CleanupCalled(Il2CppInterop)]
    else ConvertTrace
  }

  /**
   * The regeneration branch: it always cleans both packages and then runs the
   * dumper; it succeeds exactly when both executions do, and only then does it
   * touch the stored state, which it then leaves recording the current hash
   * and the emitted listing.
   */
  function GenerateSpec(w: World, o: Oracle): (r: Outcome)
    ensures DumpTrace <= r.events
    ensures r.code == 0 <==> o.dumperExecute && o.interopExecute
    ensures r.code != 0 ==> r.code == 1 && r.world == w
    ensures r.code == 0 ==> r.world.hash == o.currentHash && r.world.oldFiles == o.listing
    ensures r.code == 0 ==> r.world.saved == Settings(o.currentHash, o.listing)
  {
    if !(o.dumperExecute && o.interopExecute) then Outcome(1, w, ConvertEvents(o.dumperExecute, o.interopExecute))
    else
      var w1 := PromoteStep(PurgeStep(w.(output := o.emitted)), o.listing);
      var w2 := w1.(hash := o.currentHash, saved := Settings(o.currentHash, w1.oldFiles));
      Outcome(0, w2, ConvertTrace + MigrateTrace)
  }

  /**
   * One whole run: the exit code is 0 or 1; every run starts with the setup
   * calls; a failing run keeps the stored state (only the generation-needed
   * flag may be set); the persisted configuration is either untouched or
   * records the current hash with the emitted listing.
   */
  function RunSpec(w: World, o: Oracle): (r: Outcome)
    ensures r.code == 0 || r.code == 1
    ensures SetupTrace(o) <= r.events
    ensures r.code == 1 ==> r.world == w.(needed := r.world.needed)
    ensures r.world.saved == w.saved || r.world.saved == Settings(o.currentHash, o.listing)
  {
    if !SetupsPass(o) then Outcome(1, w, SetupTrace(o))
    else
      var w1 := w.(needed := w.needed || HashChanged(w.hash, o.currentHash));
      if !w1.needed then Outcome(0, w1, SetupTrace(o))
      else
        var g := GenerateSpec(w1, o);
        Outcome(g.code, g.world, SetupTrace(o) + g.events)
  }

  // ---------------------------------------------------------------------------
  // Objects
  // ---------------------------------------------------------------------------

  /** The ghost record of everything observable that a run did, in order. */
  class Trace {
    ghost var events: seq<Event>

    constructor ()
      ensures events == []
    {
      events := [];
    }
  }

  /** A package seen through its lifecycle operations; what Setup and Execute answer is fixed in advance. */
  class Package {
    const id: PackageId
    const log: Trace
    const setupResult: bool
    const executeResult: bool

    constructor (id: PackageId, log: Trace, setupResult: bool, executeResult: bool)
      ensures this.id == id && this.log == log
      ensures this.setupResult == setupResult && this.executeResult == executeResult
    {
      this.id := id;
      this.log := log;
      this.setupResult := setupResult;
      this.executeResult := executeResult;
    }

    method Setup() returns (ok: bool)
      modifies log
      ensures ok == setupResult
      ensures log.events == old(log.events) + [SetupCalled(id)]
    {
      ok := setupResult;
      log.events := log.events + [SetupCalled(id)];
    }

    method Execute() returns (ok: bool)
      modifies log
      ensures ok == executeResult
      ensures log.events == old(log.events) + [ExecuteCalled(id)]
    {
      ok := executeResult;
      log.events := log.events + [ExecuteCalled(id)];
    }

    method Cleanup()
      modifies log
      ensures log.events == old(log.events) + [CleanupCalled(id)]
    {
      log.events := log.events + [CleanupCalled(id)];
    }

    method Save()
      modifies log
      ensures log.events == old(log.events) + [SaveCalled(id)]
    {
      log.events := log.events + [SaveCalled(id)];
    }
  }

  /** `Config.Values` together with `Config.Save`. */
  class Config {
    const log: Trace
    var GameAssemblyHash: string
    var OldFiles: seq<string>
    ghost var saved: Settings

    constructor (log: Trace, hash: string, oldFiles: seq<string>, saved: Settings)
      ensures this.log == log && GameAssemblyHash == hash && OldFiles == oldFiles && this.saved == saved
    {
      this.log := log;
      GameAssemblyHash := hash;
      OldFiles := oldFiles;
      this.saved := saved;
    }

    method Save()
      modifies this`saved, log
      ensures saved == Settings(GameAssemblyHash, OldFiles)
      ensures log.events == old(log.events) + [ConfigSaved]
    {
      saved := Settings(GameAssemblyHash, OldFiles);
      log.events := log.events + [ConfigSaved];
    }
  }

  /** The generator module's static state. */
  class Generator {
    const dumper: Package
    const il2cppinterop: Package
    const unitydependencies: Package
    const deobfuscationMap: Package
    const deobfuscationRegex: Package
    const config: Config
    const log: Trace
    var AssemblyGenerationNeeded: bool
    var assemblies: Directory      // MelonEnvironment.Il2CppAssembliesDirectory
    var interopOutput: Directory   // il2cppinterop.OutputFolder

    /** Every package and the configuration report to the one trace. */
    predicate Valid() {
      && dumper.id == Dumper && il2cppinterop.id == Il2CppInterop && unitydependencies.id == UnityDependencies
      && deobfuscationMap.id == DeobfuscationMap && deobfuscationRegex.id == DeobfuscationRegex
      && dumper.log == log && il2cppinterop.log == log && unitydependencies.log == log
      && deobfuscationMap.log == log && deobfuscationRegex.log == log && config.log == log
    }

    constructor (dumper: Package, il2cppinterop: Package, unitydependencies: Package, deobfuscationMap: Package,
                 deobfuscationRegex: Package, config: Config, log: Trace, force: bool,
                 assemblies: Directory, interopOutput: Directory)
      requires dumper.id == Dumper && il2cppinterop.id == Il2CppInterop && unitydependencies.id == UnityDependencies
      requires deobfuscationMap.id == DeobfuscationMap && deobfuscationRegex.id == DeobfuscationRegex
      requires dumper.log == log && il2cppinterop.log == log && unitydependencies.log == log
      requires deobfuscationMap.log == log && deobfuscationRegex.log == log && config.log == log
      ensures Valid()
      ensures this.dumper == dumper && this.il2cppinterop == il2cppinterop
      ensures this.unitydependencies == unitydependencies && this.deobfuscationMap == deobfuscationMap
      ensures this.deobfuscationRegex == deobfuscationRegex && this.config == config && this.log == log
      ensures AssemblyGenerationNeeded == force
      ensures this.assemblies == assemblies && this.interopOutput == interopOutput
    {
      this.dumper := dumper;
      this.il2cppinterop := il2cppinterop;
      this.unitydependencies := unitydependencies;
      this.deobfuscationMap := deobfuscationMap;
      this.deobfuscationRegex := deobfuscationRegex;
      this.config := config;
      this.log := log;
      AssemblyGenerationNeeded := force;
      this.assemblies := assemblies;
      this.interopOutput := interopOutput;
    }

    ghost function State(): World
      reads this, config
    {
      World(AssemblyGenerationNeeded, config.GameAssemblyHash, config.OldFiles, config.saved, assemblies,
            interopOutput)
    }

    ghost function Answers(currentHash: string, emitted: Directory, listing: seq<string>): Oracle {
      Oracle(dumper.setupResult, il2cppinterop.setupResult, unitydependencies.setupResult,
             deobfuscationMap.setupResult, deobfuscationRegex.setupResult,
             dumper.executeResult, il2cppinterop.executeResult, currentHash, emitted, listing)
    }

    /** Deletes every recorded old file that exists, then forgets the records. */
    method OldFilesCleanup()
      modifies this`assemblies, config`OldFiles
      ensures config.OldFiles == []
      ensures assemblies == Purged(old(assemblies), old(config.OldFiles))
    {
      if |config.OldFiles| <= 0 {
        return;
      }
      var i := 0;
      while i < |config.OldFiles|
        invariant 0 <= i <= |config.OldFiles|
        invariant config.OldFiles == old(config.OldFiles)
        invariant assemblies == old(assemblies) - NameSet(config.OldFiles[..i])
      {
        var filename := config.OldFiles[i];
        if filename in assemblies {
          assemblies := assemblies - {filename};
        }
        assert NameSet(config.OldFiles[..i + 1]) == NameSet(config.OldFiles[..i]) + {filename} by {
          assert config.OldFiles[..i + 1] == config.OldFiles[..i] + [filename];
        }
        i := i + 1;
      }
      assert config.OldFiles[..i] == config.OldFiles;
      config.OldFiles := [];
    }

    /** One iteration of `OldFiles_LAM`: records the name, then moves the file over any existing one. */
    method MoveFile(filename: string)
      requires filename in interopOutput
      modifies this`assemblies, this`interopOutput, config`OldFiles
      ensures config.OldFiles == old(config.OldFiles) + [filename]
      ensures assemblies == old(assemblies)[filename := old(interopOutput)[filename]]
      ensures interopOutput == old(interopOutput) - {filename}
    {
      config.OldFiles := config.OldFiles + [filename];
      if filename in assemblies {
        assemblies := assemblies - {filename};
      }
      assemblies := assemblies[filename := interopOutput[filename]];
      interopOutput := interopOutput - {filename};
    }

    /** Moves each output file into the assemblies directory, overwriting, and records its name. */
    method OldFilesLam(listing: seq<string>)
      requires Valid()
      requires IsListing(listing, interopOutput)
      modifies this`assemblies, this`interopOutput, config`OldFiles, config`saved, log
      ensures assemblies == Promoted(old(assemblies), old(interopOutput), listing)
      ensures interopOutput == old(interopOutput) - NameSet(listing)
      ensures config.OldFiles == old(config.OldFiles) + listing
      ensures config.saved == Settings(config.GameAssemblyHash, config.OldFiles)
      ensures log.events == old(log.events) + [ConfigSaved]
    {
      ghost var target, output := assemblies, interopOutput;
      var i := 0;
      while i < |listing|
        invariant 0 <= i <= |listing|
        invariant assemblies == Promoted(target, output, listing[..i])
        invariant interopOutput == output - NameSet(listing[..i])
        invariant config.OldFiles == old(config.OldFiles) + listing[..i]
        invariant log.events == old(log.events)
      {
        ListingStep(listing, output, i);
        Advance(listing, i, target, output);
        MoveFile(listing[i]);
        i := i + 1;
      }
      assert listing[..i] == listing;
      config.Save();
    }

    /** The setup phase: stops at the first failing setup, else also sets up the regex package. */
    method SetupPackages() returns (ok: bool)
      requires Valid()
      modifies log
      ensures ok == (dumper.setupResult && il2cppinterop.setupResult && unitydependencies.setupResult
                     && deobfuscationMap.setupResult)
      ensures log.events == old(log.events) + SetupCalls(dumper.setupResult, il2cppinterop.setupResult,
                                                         unitydependencies.setupResult, deobfuscationMap.setupResult)
    {
      ok := dumper.Setup();
      if !ok { return; }
      ok := il2cppinterop.Setup();
      if !ok { return; }
      ok := unitydependencies.Setup();
      if !ok { return; }
      ok := deobfuscationMap.Setup();
      if !ok { return; }
      var _ := deobfuscationRegex.Setup();
    }

    /** Runs the dumper, then the converter; after a failure cleans up what ran and reports false. */
    method Convert() returns (ok: bool)
      requires Valid()
      modifies log
      ensures ok == (dumper.executeResult && il2cppinterop.executeResult)
      ensures log.events == old(log.events) + ConvertEvents(dumper.executeResult, il2cppinterop.executeResult)
    {
      dumper.Cleanup();
      il2cppinterop.Cleanup();

      ok := dumper.Execute();
      if !ok {
        dumper.Cleanup();
        return;
      }
      ok := il2cppinterop.Execute();
      if !ok {
        dumper.Cleanup();
        il2cppinterop.Cleanup();
      }
    }

    /** After a successful conversion: purge, promote, clean up, and record the new hash. */
    method Migrate(currentHash: string, emitted: Directory, listing: seq<string>)
      requires Valid()
      requires IsListing(listing, emitted)
      modifies this`interopOutput, this`assemblies, config, log
      ensures var w1 := PromoteStep(PurgeStep(old(State()).(output := emitted)), listing);
        State() == w1.(hash := currentHash, saved := Settings(currentHash, w1.oldFiles))
      ensures log.events == old(log.events) + MigrateTrace
    {
      ghost var w := State();
      // a successful conversion leaves its output in the output folder
      interopOutput := emitted;

      OldFilesCleanup();
      assert State() == PurgeStep(w.(output := emitted));
      OldFilesLam(listing);
      ghost var w1 := PromoteStep(PurgeStep(w.(output := emitted)), listing);
      assert State() == w1;
      Finalize(currentHash);
    }

    /** The last steps of a successful regeneration: clean up, save the regex, record and persist the new hash. */
    method Finalize(currentHash: string)
      requires Valid()
      modifies config, log
      ensures config.GameAssemblyHash == currentHash && config.OldFiles == old(config.OldFiles)
      ensures config.saved == Settings(currentHash, config.OldFiles)
      ensures log.events == old(log.events) + MigrateTrace[1..]
    {
      dumper.Cleanup();
      il2cppinterop.Cleanup();

      deobfuscationRegex.Save();
      config.GameAssemblyHash := currentHash;
      config.Save();
    }

    /** Dumps, converts and swaps the new assemblies in. */
    method Generate(currentHash: string, emitted: Directory, listing: seq<string>) returns (code: int)
      requires Valid()
      requires IsListing(listing, emitted)
      modifies this`interopOutput, this`assemblies, config, log
      ensures var spec := GenerateSpec(old(State()), Answers(currentHash, emitted, listing));
        && code == spec.code && State() == spec.world
        && log.events == old(log.events) + spec.events
    {
      var ok := Convert();
      if !ok {
        return 1;
      }
      Migrate(currentHash, emitted, listing);
      code := 0;
    }

    /** One run of the generator: 0 when the assemblies are up to date or were regenerated, 1 on failure. */
    method Run(currentHash: string, emitted: Directory, listing: seq<string>) returns (code: int)
      requires Valid()
      requires IsListing(listing, emitted)
      modifies this, config, log
      ensures var spec := RunSpec(old(State()), Answers(currentHash, emitted, listing));
        && code == spec.code && State() == spec.world
        && log.events == old(log.events) + spec.events
    {
      ghost var w, o := State(), Answers(currentHash, emitted, listing);
      var ok := SetupPackages();
      if !ok {
        assert RunSpec(w, o) == Outcome(1, w, SetupTrace(o));
        return 1;
      }
      if HashChanged(config.GameAssemblyHash, currentHash) {
        AssemblyGenerationNeeded := true;
      }
      ghost var w1 := w.(needed := AssemblyGenerationNeeded);
      assert State() == w1;
      if !AssemblyGenerationNeeded {
        assert RunSpec(w, o) == Outcome(0, w1, SetupTrace(o));
        return 0;
      }
      code := Generate(currentHash, emitted, listing);
      ghost var g := GenerateSpec(w1, o);
      assert RunSpec(w, o) == Outcome(g.code, g.world, SetupTrace(o) + g.events);
    }
  }
}
