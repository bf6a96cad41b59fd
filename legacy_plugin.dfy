/**
 * The older JavaScript plugin of build-manager-plugin.js, `buildManagerPlugin`:
 * the same hook state machine as `buildKeeper`, without options (always
 * enabled) and around the legacy manager.  It collects its records under the
 * legacy manager's own dist directory.
 */
module LegacyPlugin {
  import opened Paths
  import opened Records
  import opened FileSystems
  import opened Ledger
  import opened Retention
  import LegacyManager
  import opened Plugin

  class BuildManagerPlugin {
    const manager: LegacyManager.BuildManager
    var isBuildComplete: bool
    var generatedFiles: seq<string>

    ghost predicate Valid()
      reads this
    {
      && manager.Valid()
      && Distinct(generatedFiles)
      && forall n :: n in generatedFiles ==> StartsWith(n, AssetsPrefix)
    }

    /** `buildManagerPlugin()`: a fresh legacy manager and an empty hook state; `dirname` stands for `__dirname`. */
    constructor (dirname: string)
      ensures Valid()
      ensures manager.distPath == Manager.PathJoin(dirname, "../dist")
      ensures !isBuildComplete && generatedFiles == []
    {
      manager := new LegacyManager.BuildManager(dirname);
      isBuildComplete := false;
      generatedFiles := [];
    }

    /** `buildStart`: a new build has not closed and has generated nothing yet. */
    method BuildStart()
      requires Valid()
      modifies this
      ensures Valid()
      ensures !isBuildComplete && generatedFiles == []
    {
      isBuildComplete := false;
      generatedFiles := [];
    }

    /** `generateBundle`: remember the bundle's asset names. */
    method GenerateBundle(keys: seq<string>)
      requires Valid()
      modifies this
      ensures Valid()
      ensures isBuildComplete == old(isBuildComplete)
      ensures generatedFiles == old(generatedFiles) + NewAssetNames(old(generatedFiles), keys)
      ensures |old(generatedFiles)| <= |generatedFiles| && generatedFiles[..|old(generatedFiles)|] == old(generatedFiles)
      ensures forall n :: n in generatedFiles <==> n in old(generatedFiles) || (n in keys && StartsWith(n, AssetsPrefix))
    {
      generatedFiles := RecordAssetNames(generatedFiles, keys);
    }

    /**
     * `closeBundle`: at most one cycle per build, with the records of the
     * generated names that exist; every failure is caught.
     */
    method CloseBundle(fs: FileSystem, ledger: LedgerFile, probe: string -> FileStat, versionId: string, now: int)
      returns (outcome: CloseOutcome)
      requires Valid() && fs.Valid()
      modifies this, fs, ledger
      ensures Valid() && isBuildComplete && generatedFiles == old(generatedFiles)
      ensures fs.Valid() && fs.lockedFiles == old(fs.lockedFiles) && fs.lockedDirs == old(fs.lockedDirs)
      ensures ledger.writable == old(ledger.writable)
      ensures old(isBuildComplete) ==> outcome == AlreadyClosed
      ensures old(isBuildComplete) || ExistingRecords(old(fs.files), old(fs.dirs), generatedFiles, probe).Err? ==>
                fs.files == old(fs.files) && fs.dirs == old(fs.dirs) && ledger.stored == old(ledger.stored)
      ensures !old(isBuildComplete) && ExistingRecords(old(fs.files), old(fs.dirs), generatedFiles, probe).Err? ==>
                outcome == Failed(ExistingRecords(old(fs.files), old(fs.dirs), generatedFiles, probe).error)
      ensures !old(isBuildComplete) && ExistingRecords(old(fs.files), old(fs.dirs), generatedFiles, probe).Ok? ==>
                var records := ExistingRecords(old(fs.files), old(fs.dirs), generatedFiles, probe).value;
                && !outcome.AlreadyClosed?
                && manager.core.Cycled(old(fs.files), old(fs.dirs), fs.files, fs.dirs, fs.lockedFiles, fs.lockedDirs,
                                       old(ledger.Load()), records, versionId, now, CycleResult(outcome))
                && ledger.stored == if ledger.writable then Some(NextLedger(old(ledger.Load()), NewVersion(versionId, now, records, "assets/"), 3))
                                    else old(ledger.stored)
    {
      if isBuildComplete {
        return AlreadyClosed;
      }
      isBuildComplete := true;
      var records := CollectRecords(fs, generatedFiles, probe);
      if records.Err? {
        return Failed(records.error);
      }
      ghost var files0, dirs0, previous := fs.files, fs.dirs, ledger.Load();
      var result := manager.ManageBuild(fs, ledger, records.value, versionId, now);
      match result {
        case Err(e) => outcome := Failed(e);
        case Ok(v) => outcome := Managed(v);
      }
      assert CycleResult(outcome) == result;
      assert manager.core.Cycled(files0, dirs0, fs.files, fs.dirs, fs.lockedFiles, fs.lockedDirs,
                                 previous, records.value, versionId, now, CycleResult(outcome));
    }
  }
}
