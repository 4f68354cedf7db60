/**
 * What one run of the generator guarantees, stated over `Core.RunSpec`
 * (which `Core.Generator.Run` is proved to compute), and the laws of the
 * stale-file bookkeeping.
 */
module CoreProperties {
  import opened Core

  // ---------------------------------------------------------------------------
  // Stale-file bookkeeping
  // ---------------------------------------------------------------------------

  /** After the purge no recorded name is left, and every other file is untouched. */
  lemma {:induction false} PurgedContents(target: Directory, names: seq<string>)
    ensures forall n :: n in Purged(target, names) <==> n in target && n !in names
    ensures forall n :: n in Purged(target, names) ==> Purged(target, names)[n] == target[n]
  {
    forall n
      ensures n in NameSet(names) <==> n in names
    {
    }
  }

  /** After the move every listed output file is in the target, overwriting, and other target files are untouched. */
  lemma {:induction false} PromotedContents(target: Directory, output: Directory, names: seq<string>)
    requires IsListing(names, output)
    ensures forall n :: n in Promoted(target, output, names) <==> n in target || n in output
    ensures forall n :: n in output ==> Promoted(target, output, names)[n] == output[n]
    ensures forall n :: n in target && n !in output ==> Promoted(target, output, names)[n] == target[n]
    ensures output - NameSet(names) == map[]
  {
    forall n
      ensures n in names <==> n in output
    {
      assert n in names <==> n in NameSet(names);
    }
  }

  /**
   * Purge followed by promote: the recorded files of the previous run are gone
   * unless re-emitted, the emitted files are in place, everything else is
   * untouched, the output folder is empty, and `OldFiles` lists exactly the
   * emitted names, in enumeration order.
   */
  lemma {:induction false} MigrationLaw(w: World, emitted: Directory, listing: seq<string>)
    requires IsListing(listing, emitted)
    ensures var m := PromoteStep(PurgeStep(w.(output := emitted)), listing);
      && m.oldFiles == listing
      && NameSet(m.oldFiles) == emitted.Keys
      && m.output == map[]
      && (forall n :: n in emitted ==> n in m.assemblies && m.assemblies[n] == emitted[n])
      && (forall n :: n in w.oldFiles && n !in emitted ==> n !in m.assemblies)
      && (forall n :: n in w.assemblies && n !in w.oldFiles && n !in emitted ==>
            n in m.assemblies && m.assemblies[n] == w.assemblies[n])
      && (forall n :: n in m.assemblies ==> n in emitted || (n in w.assemblies && n !in w.oldFiles))
  {
    PurgedContents(w.assemblies, w.oldFiles);
    PromotedContents(Purged(w.assemblies, w.oldFiles), emitted, listing);
  }

  /**
   * `OldFiles_LAM` saves the configuration before the new hash is recorded:
   * that snapshot still carries the previous hash and already lists the new
   * files, so a run interrupted after it regenerates and purges them.
   */
  lemma InterruptedMigrationRegenerates(w: World, emitted: Directory, listing: seq<string>, current: string)
    requires w.hash != current
    ensures var m := PromoteStep(PurgeStep(w.(output := emitted)), listing);
      && m.saved == Settings(w.hash, listing)
      && HashChanged(m.saved.hash, current)
  {
  }

  // ---------------------------------------------------------------------------
  // The run
  // ---------------------------------------------------------------------------

  /** A failing setup among the first four aborts with 1: the chain stops there, nothing runs, nothing changes. */
  lemma SetupFailureAborts(w: World, o: Oracle)
    requires !SetupsPass(o)
    ensures var r := RunSpec(w, o);
      && r.code == 1 && r.world == w
      && (forall p :: ExecuteCalled(p) !in r.events && CleanupCalled(p) !in r.events)
      && ConfigSaved !in r.events
      && SetupCalled(DeobfuscationRegex) !in r.events
      && (!o.dumperSetup ==> r.events == SetupChain[..1])
      && (o.dumperSetup && !o.interopSetup ==> r.events == SetupChain[..2])
      && (o.dumperSetup && o.interopSetup && !o.unitySetup ==> r.events == SetupChain[..3])
      && (o.dumperSetup && o.interopSetup && o.unitySetup && !o.mapSetup ==> r.events == SetupChain)
  {
  }

  /** The regex package is set up whenever the first four succeed, and its answer never matters. */
  lemma RegexSetupIgnored(w: World, o: Oracle, answer: bool)
    ensures RunSpec(w, o.(regexSetup := answer)) == RunSpec(w, o)
    ensures SetupsPass(o) ==> SetupCalled(DeobfuscationRegex) in RunSpec(w, o).events
  {
    assert SetupsPass(o) ==> SetupTrace(o)[4] == SetupCalled(DeobfuscationRegex);
  }

  /** Once set up, a run regenerates iff forced, the stored hash is empty, or it differs from the current one. */
  lemma GenerationNeededIff(w: World, o: Oracle)
    requires SetupsPass(o)
    ensures var r := RunSpec(w, o);
      && (r.world.needed <==> w.needed || w.hash == "" || w.hash != o.currentHash)
      && (ExecuteCalled(Dumper) in r.events <==> w.needed || w.hash == "" || w.hash != o.currentHash)
  {
    var r := RunSpec(w, o);
    if r.world.needed {
      assert r.events[|SetupTrace(o)| + 2] == ExecuteCalled(Dumper);
    }
  }

  /** Up to date: 0, no cleanup or execution, nothing changes. */
  lemma UpToDate(w: World, o: Oracle)
    requires SetupsPass(o) && !w.needed && w.hash != "" && w.hash == o.currentHash
    ensures var r := RunSpec(w, o);
      && r.code == 0 && r.world == w
      && r.events == SetupChain + [SetupCalled(DeobfuscationRegex)]
      && (forall p :: ExecuteCalled(p) !in r.events && CleanupCalled(p) !in r.events)
  {
  }

  /** A failing dump: 1, the converter never runs, the dumper is cleaned last, the stored state is unchanged. */
  lemma DumperFailure(w: World, o: Oracle)
    requires SetupsPass(o) && (w.needed || HashChanged(w.hash, o.currentHash)) && !o.dumperExecute
    ensures var r := RunSpec(w, o);
      && r.code == 1
      && ExecuteCalled(Il2CppInterop) !in r.events
      && r.events[|r.events| - 1] == CleanupCalled(Dumper)
      && r.world == w.(needed := true)
  {
  }

  /** A failing conversion: 1, both packages cleaned last, no migration, the stored state is unchanged. */
  lemma ConverterFailure(w: World, o: Oracle)
    requires SetupsPass(o) && (w.needed || HashChanged(w.hash, o.currentHash))
    requires o.dumperExecute && !o.interopExecute
    ensures var r := RunSpec(w, o);
      && r.code == 1
      && r.events[|r.events| - 2..] == [CleanupCalled(Dumper), CleanupCalled(Il2CppInterop)]
      && ConfigSaved !in r.events
      && r.world == w.(needed := true)
  {
  }

  /**
   * Whatever fails, the stored hash, `OldFiles`, the saved configuration and
   * both directories are unchanged.  For the converter's output folder this
   * rests on the model's packages: their `Execute` and `Cleanup` only record
   * the call and touch no directory.
   */
  lemma FailureChangesNothing(w: World, o: Oracle)
    ensures var r := RunSpec(w, o);
      r.code == 1 ==> r.world == w.(needed := r.world.needed)
    ensures RunSpec(w, o).code in {0, 1}
  {
  }

  /** A run that returns 0 leaves the current hash stored; after a regeneration it is saved with the new file list. */
  lemma SuccessRecordsHash(w: World, o: Oracle)
    ensures var r := RunSpec(w, o);
      r.code == 0 ==> r.world.hash == o.currentHash
    ensures var r := RunSpec(w, o);
      r.code == 0 && ExecuteCalled(Dumper) in r.events ==>
        && r.world.oldFiles == o.listing
        && r.world.saved == Settings(o.currentHash, o.listing)
        && r.events[|r.events| - 1] == ConfigSaved
  {
    var r := RunSpec(w, o);
    if r.code == 0 && ExecuteCalled(Dumper) in r.events {
      assert r.world.oldFiles == o.listing;
    }
  }

  /**
   * A second run in a new process (no force flag) with the same binary and
   * working setups takes the up-to-date branch: 0, nothing executed, nothing
   * changed.  The current hash must be non-empty: an empty stored hash always
   * asks for a regeneration.
   */
  lemma SecondRunUpToDate(w: World, o: Oracle, again: Oracle)
    requires RunSpec(w, o).code == 0 && o.currentHash != ""
    requires SetupsPass(again) && again.currentHash == o.currentHash
    ensures var w1 := RunSpec(w, o).world.(needed := false);
      var r := RunSpec(w1, again);
      && r.code == 0 && r.world == w1
      && (forall p :: ExecuteCalled(p) !in r.events)
  {
    SuccessRecordsHash(w, o);
    UpToDate(RunSpec(w, o).world.(needed := false), again);
  }

  /** The converter runs only after the dumper ran and succeeded, and the dumper only after both were cleaned. */
  lemma ExecutionOrder(w: World, o: Oracle)
    ensures var e := RunSpec(w, o).events;
      ExecuteCalled(Il2CppInterop) in e ==>
        && o.dumperExecute
        && exists i, j :: 0 <= i < j < |e| && e[i] == ExecuteCalled(Dumper) && e[j] == ExecuteCalled(Il2CppInterop)
    ensures var e := RunSpec(w, o).events;
      ExecuteCalled(Dumper) in e ==>
        exists i, j, k :: 0 <= i < j < k < |e| && e[i] == CleanupCalled(Dumper) && e[j] == CleanupCalled(Il2CppInterop)
          && e[k] == ExecuteCalled(Dumper)
  {
    var e := RunSpec(w, o).events;
    var n := |SetupTrace(o)|;
    if ExecuteCalled(Dumper) in e {
      assert e[n] == CleanupCalled(Dumper) && e[n + 1] == CleanupCalled(Il2CppInterop) && e[n + 2] == ExecuteCalled(Dumper);
    }
    if ExecuteCalled(Il2CppInterop) in e {
      assert e[n + 2] == ExecuteCalled(Dumper) && e[n + 3] == ExecuteCalled(Il2CppInterop);
    }
  }
}
