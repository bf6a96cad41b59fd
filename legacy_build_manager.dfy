/**
 * The older JavaScript build manager of build-manager.js.  It runs the same
 * cycle as the TypeScript manager with its configuration fixed in the code:
 * the asset prefix "assets/", the swept directory `dist/assets`, a bound of
 * three versions, and a dist directory and ledger file located next to the
 * directory holding the script.  Its cleanup reports no count.
 */
module LegacyManager {
  import opened Paths
  import opened Records
  import opened FileSystems
  import opened Ledger
  import opened Retention
  import Manager

  class BuildManager {
    const distPath: string
    const versionsFile: string
    const maxVersions: int
    /** The engine with the fixed configuration; every operation delegates to it. */
    const core: Manager.BuildManager

    /** The fixed configuration; `dirname` stands for `__dirname`. */
    constructor (dirname: string)
      ensures distPath == Manager.PathJoin(dirname, "../dist")
      ensures versionsFile == Manager.PathJoin(dirname, "../.build-versions.json")
      ensures maxVersions == 3
      ensures core.distPath == distPath && core.versionsFile == versionsFile
      ensures core.maxVersions == maxVersions && core.assetsPattern == "assets/" && core.verbose
      ensures Valid()
    {
      distPath := Manager.PathJoin(dirname, "../dist");
      versionsFile := Manager.PathJoin(dirname, "../.build-versions.json");
      maxVersions := 3;
      core := new Manager.BuildManager(
        Manager.ManagerOptions(Some(Manager.PathJoin(dirname, "../dist")), Some(Manager.PathJoin(dirname, "../.build-versions.json")),
                               Some(3), Some("assets/"), Some(true)),
        dirname);
    }

    /** The legacy manager is the TypeScript engine with the prefix "assets/" and the bound three. */
    ghost predicate Valid() {
      core.assetsPattern == "assets/" && core.maxVersions == maxVersions == 3
    }

    /**
     * `cleanUnusedFiles`: the same sweep of `dist/assets`; the count is
     * discarded, and an asset path that is a regular file still throws.
     */
    method CleanUnusedFiles(fs: FileSystem, versions: seq<BuildVersion>) returns (r: Result<()>)
      requires Valid() && fs.Valid()
      modifies fs
      ensures fs.Valid()
      ensures fs.lockedFiles == old(fs.lockedFiles) && fs.lockedDirs == old(fs.lockedDirs)
      ensures r.Err? <==> versions != [] && ["assets"] in old(fs.files)
      ensures r.Err? ==> r.error == NotADirectory(["assets"])
      ensures Swept(old(fs.files), old(fs.dirs), fs.files, fs.dirs, versions, "assets/", ["assets"], fs.lockedFiles, fs.lockedDirs)
    {
      Manager.DefaultAssetsDirectory();
      var counted := core.CleanUnusedFiles(fs, versions);
      match counted {
        case Err(e) => r := Err(e);
        case Ok(_) => r := Ok(());
      }
    }

    /** `removeEmptyDirectories`: the same bottom-up pruning. */
    method RemoveEmptyDirectories(fs: FileSystem, dir: Path)
      requires fs.Valid() && dir in fs.dirs
      modifies fs
      ensures fs.Valid()
      ensures fs.files == old(fs.files)
      ensures fs.lockedFiles == old(fs.lockedFiles) && fs.lockedDirs == old(fs.lockedDirs)
      ensures Pruned(old(fs.dirs), fs.dirs, fs.files, dir, fs.lockedDirs)
    {
      core.RemoveEmptyDirectories(fs, dir);
    }

    /** `manageBuild`: the same cycle, with a bound of three and the prefix "assets/". */
    method ManageBuild(fs: FileSystem, ledger: LedgerFile, generatedFiles: seq<BuildFile>, versionId: string, now: int)
      returns (r: Result<BuildResult>)
      requires Valid() && fs.Valid()
      modifies fs, ledger
      ensures fs.Valid()
      ensures fs.lockedFiles == old(fs.lockedFiles) && fs.lockedDirs == old(fs.lockedDirs)
      ensures ledger.writable == old(ledger.writable)
      ensures ledger.stored == if ledger.writable then Some(NextLedger(old(ledger.Load()), NewVersion(versionId, now, generatedFiles, "assets/"), 3))
                               else old(ledger.stored)
      ensures core.Cycled(old(fs.files), old(fs.dirs), fs.files, fs.dirs, fs.lockedFiles, fs.lockedDirs,
                          old(ledger.Load()), generatedFiles, versionId, now, r)
    {
      r := core.ManageBuild(fs, ledger, generatedFiles, versionId, now);
    }
  }

  /**
   * A legacy cycle from any ledger holds at most three versions, the newest
   * being the one it created, and sweeps `dist/assets`.
   */
  lemma LegacyCycle(m: BuildManager, previous: seq<BuildVersion>, generated: seq<BuildFile>, id: string, now: int)
    requires m.Valid()
    ensures var kept := m.core.CycleLedger(previous, generated, id, now);
            && |kept| == Min(|previous| + 1, 3)
            && kept[|kept| - 1] == BuildVersion(id, now, AssetFiles(generated, "assets/"))
            && Manager.AssetsDirectory(m.core.assetsPattern) == ["assets"]
  {
    RetainKeepsNewest(previous + [NewVersion(id, now, generated, "assets/")], 3);
    Manager.DefaultAssetsDirectory();
  }
}
