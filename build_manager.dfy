/**
 * The build manager of src/build-manager.ts: its configuration defaults, the
 * cleanup of unreferenced asset files with its recursive walk, the pruning of
 * empty directories, and the retention cycle `manageBuild`.
 *
 * The tree under the dist directory is a `FileSystem` and the ledger file a
 * `LedgerFile`; both are passed to the methods that touch them.  The clock and
 * the random part of a version identifier are parameters of `ManageBuild`.
 */
module Manager {
  import opened Paths
  import opened Records
  import opened FileSystems
  import opened Ledger
  import opened Retention

  /** The option bag of the constructor; `None` is an option left undefined. */
  datatype ManagerOptions = ManagerOptions(
    distPath: Option<string>,
    versionsFile: Option<string>,
    maxVersions: Option<int>,
    assetsPattern: Option<string>,
    verbose: Option<bool>)

  /** `value || fallback` for a string option: undefined and "" are both falsy. */
  function OrString(value: Option<string>, fallback: string): (r: string)
    ensures value.Some? && value.value != "" ==> r == value.value
    ensures value.None? || value.value == "" ==> r == fallback
  {
    if value.Some? && value.value != "" then value.value else fallback
  }

  /** `value || 3` for the retention bound: undefined and 0 are both falsy. */
  function OrThree(value: Option<int>): (r: int)
    ensures r != 0
    ensures value.Some? && value.value != 0 ==> r == value.value
    ensures value.None? || value.value == 0 ==> r == 3
  {
    if value.Some? && value.value != 0 then value.value else 3
  }

  /**
   * `path.join(a, b)`, without normalisation: `.` and `..` segments stay, and so
   * does a doubled '/' when `a` already ends in '/' (a working directory of "/").
   */
  function PathJoin(a: string, b: string): string {
    a + "/" + b
  }

  /** The asset directory the sweep walks: `path.join(distPath, assetsPattern.replace('/', ''))`. */
  function AssetsDirectory(pattern: string): (root: Path)
    ensures forall i :: 0 <= i < |root| ==> root[i] != "" && '/' !in root[i]
    ensures CleanName(RemoveFirstSlash(pattern)) ==> root != [] && Join(root) == RemoveFirstSlash(pattern)
  {
    var s := RemoveFirstSlash(pattern);
    if CleanName(s) then
      JoinSegments(s);
      Segments(s)
    else
      Segments(s)
  }

  /**
   * The asset path `path.join` builds keeps a trailing '/' when the prefix has a
   * second '/' at its end.  `existsSync` on such a path is false for a regular
   * file: only a directory can be named with a trailing '/'.
   */
  predicate KeepsTrailingSlash(pattern: string): (b: bool)
    ensures b <==> exists k :: 0 <= k < |pattern| - 1 && pattern[k] == '/' && pattern[|pattern| - 1] == '/'
  {
    var s := RemoveFirstSlash(pattern);
    if s != "" && s[|s| - 1] == '/' then
      assert '/' in pattern;
      true
    else if '/' in pattern then
      var n := NameLength(pattern);
      assert pattern[n] == '/' && forall k :: 0 <= k < n ==> pattern[k] != '/';
      assert s == pattern[..n] + pattern[n + 1..];
      if n < |pattern| - 1 then
        assert s[|s| - 1] == pattern[|pattern| - 1];
        false
      else
        false
    else
      false
  }

  /** `existsSync` on the asset path: a directory always, a regular file only without a trailing '/'. */
  predicate AssetPathExists(files: set<Path>, dirs: set<Path>, pattern: string): (b: bool)
    ensures b <==> AssetsDirectory(pattern) in dirs || (AssetsDirectory(pattern) in files && !KeepsTrailingSlash(pattern))
  {
    var root := AssetsDirectory(pattern);
    root in dirs || (root in files && !KeepsTrailingSlash(pattern))
  }

  /** With the default prefix the swept directory is `dist/assets`, the directory the prefix names, named without a trailing '/'. */
  lemma DefaultAssetsDirectory()
    ensures AssetsDirectory("assets/") == ["assets"]
    ensures !KeepsTrailingSlash("assets/")
  {
    var s := "assets/";
    assert forall k :: 0 <= k < 6 ==> s[k] != '/';
    assert s[6] == '/';
    assert RemoveFirstSlash(s) == "assets";
    SegmentsOfName("assets");
  }

  /**
   * Only the first '/' of the prefix is removed, so for a nested prefix the
   * swept directory is not the one the prefix names: "static/js/" sweeps
   * `dist/staticjs`, while the ledger's paths lie under `dist/static/js`.
   */
  lemma NestedPrefixSweepsJoinedDirectory()
    ensures AssetsDirectory("static/js/") == ["staticjs"]
    ensures KeepsTrailingSlash("static/js/")
  {
    var s := "static/js/";
    assert forall k :: 0 <= k < 6 ==> s[k] != '/';
    assert s[6] == '/';
    assert RemoveFirstSlash(s) == "staticjs" + "/";
    SegmentsOfName("staticjs");
    SegmentsOfDirectoryName("staticjs");
  }

  /**
   * Collecting the reference set (src/build-manager.ts:67-74): for every version,
   * for every file, add its path when it starts with the asset prefix.
   */
  method CollectReferences(versions: seq<BuildVersion>, pattern: string) returns (refs: set<string>)
    ensures refs == ReferenceSet(versions, pattern)
  {
    refs := {};
    for i := 0 to |versions|
      invariant refs == ReferenceSet(versions[..i], pattern)
    {
      var files := versions[i].files;
      ghost var before := refs;
      for j := 0 to |files|
        invariant refs == before + VersionPaths(versions[i].(files := files[..j]), pattern)
      {
        VersionPathsStep(versions[i], j, pattern);
        if StartsWith(files[j].path, pattern) {
          refs := refs + {files[j].path};
        }
      }
      assert files[..|files|] == files;
      assert versions[i].(files := files[..|files|]) == versions[i];
      ReferenceSetStep(versions, i, pattern);
    }
    assert versions[..|versions|] == versions;
  }

  /** One more of a version's files adds its path exactly when it carries the prefix. */
  lemma VersionPathsStep(v: BuildVersion, j: nat, pattern: string)
    requires j < |v.files|
    ensures VersionPaths(v.(files := v.files[..j + 1]), pattern)
            == VersionPaths(v.(files := v.files[..j]), pattern) + if StartsWith(v.files[j].path, pattern) then {v.files[j].path} else {}
  {
    assert v.files[..j + 1] == v.files[..j] + [v.files[j]];
  }

  /** The reference set of one more version adds that version's asset paths. */
  lemma ReferenceSetStep(versions: seq<BuildVersion>, i: nat, pattern: string)
    requires i < |versions|
    ensures ReferenceSet(versions[..i + 1], pattern) == ReferenceSet(versions[..i], pattern) + VersionPaths(versions[i], pattern)
  {
    assert versions[..i + 1][..i] == versions[..i];
  }

  /** Eviction (src/build-manager.ts:215-222): shift the oldest version off while the ledger is over the bound. */
  method EvictOldest(versions: seq<BuildVersion>, max: int) returns (kept: seq<BuildVersion>)
    requires max >= 0
    ensures kept == Retain(versions, max)
  {
    kept := versions;
    while |kept| > max
      invariant kept == versions[|versions| - |kept|..]
      invariant |kept| >= Min(|versions|, max)
    {
      kept := kept[1..];
    }
  }

  class BuildManager {
    const distPath: string
    const versionsFile: string
    const maxVersions: int
    const assetsPattern: string
    const verbose: bool

    /** The configuration the constructor derives from an option bag; `cwd` stands for `process.cwd()`. */
    ghost predicate ConfiguredBy(options: ManagerOptions, cwd: string) {
      && distPath == OrString(options.distPath, PathJoin(cwd, "dist"))
      && versionsFile == OrString(options.versionsFile, PathJoin(distPath, ".build-versions.json"))
      && maxVersions == OrThree(options.maxVersions)
      && assetsPattern == OrString(options.assetsPattern, "assets/")
      && (verbose <==> options.verbose != Some(false))
    }

    /** The constructor's defaults: each option falls back when undefined or falsy, `verbose` only when not `false`. */
    constructor (options: ManagerOptions, cwd: string)
      ensures ConfiguredBy(options, cwd)
    {
      distPath := OrString(options.distPath, PathJoin(cwd, "dist"));
      versionsFile := OrString(options.versionsFile, PathJoin(OrString(options.distPath, PathJoin(cwd, "dist")), ".build-versions.json"));
      maxVersions := OrThree(options.maxVersions);
      assetsPattern := OrString(options.assetsPattern, "assets/");
      verbose := options.verbose != Some(false);
    }

    /**
     * `processDirectory`: walk `dir` recursively, unlinking every regular file
     * whose rendered dist-relative path is not referenced.  A failed unlink is
     * skipped and not counted.  Entries are taken in no particular order.
     */
    method ProcessDirectory(fs: FileSystem, dir: Path, refs: set<string>) returns (deleted: nat)
      requires fs.Valid() && dir in fs.dirs
      modifies fs
      ensures fs.Valid()
      ensures fs.dirs == old(fs.dirs)
      ensures fs.lockedFiles == old(fs.lockedFiles) && fs.lockedDirs == old(fs.lockedDirs)
      ensures fs.files == old(fs.files) - Doomed(old(fs.files), dir, refs, fs.lockedFiles)
      ensures deleted == |Doomed(old(fs.files), dir, refs, fs.lockedFiles)|
      decreases |DirsBelow(fs.dirs, dir)|
    {
      ghost var files0 := fs.files;
      assert Tree(files0, fs.dirs);
      var items := fs.ReadDir(dir);
      var todo := items;
      ghost var done: set<Path> := {};
      deleted := 0;
      while todo != {}
        invariant todo <= items && done == items - todo
        invariant fs.Valid()
        invariant fs.dirs == old(fs.dirs)
        invariant fs.lockedFiles == old(fs.lockedFiles) && fs.lockedDirs == old(fs.lockedDirs)
        invariant fs.files == files0 - DoomedVia(files0, dir, done, refs, fs.lockedFiles)
        invariant deleted == |DoomedVia(files0, dir, done, refs, fs.lockedFiles)|
        decreases |todo|
      {
        var item :| item in todo;
        todo := todo - {item};
        if item in fs.dirs {
          DescentShrinks(fs.dirs, fs.dirs, dir, item);
          DoomedViaDir(files0, fs.dirs, dir, done, item, refs, fs.lockedFiles);
          var n := ProcessDirectory(fs, item, refs);
          deleted := deleted + n;
        } else {
          DoomedViaFile(files0, fs.dirs, dir, done, item, refs, fs.lockedFiles);
          if Render(item) !in refs {
            var ok := fs.Unlink(item);
            if ok {
              deleted := deleted + 1;
            }
          }
        }
        done := done + {item};
      }
      assert done == items;
      DoomedViaAll(files0, fs.dirs, dir, items, refs, fs.lockedFiles);
    }

    /**
     * `removeEmptyDirectories`: for each subdirectory, prune inside it first and
     * then remove it if it is left empty.  A failed removal throws to this
     * level's catch, which abandons the rest of this directory's entries.
     */
    method RemoveEmptyDirectories(fs: FileSystem, dir: Path)
      requires fs.Valid() && dir in fs.dirs
      modifies fs
      ensures fs.Valid()
      ensures fs.files == old(fs.files)
      ensures fs.lockedFiles == old(fs.lockedFiles) && fs.lockedDirs == old(fs.lockedDirs)
      ensures Pruned(old(fs.dirs), fs.dirs, fs.files, dir, fs.lockedDirs)
      decreases |DirsBelow(fs.dirs, dir)|
    {
      ghost var dirs0 := fs.dirs;
      assert Tree(fs.files, dirs0);
      var items := fs.ReadDir(dir);
      var todo := items;
      ghost var done: set<Path> := {};
      while todo != {}
        invariant todo <= items && done == items - todo
        invariant fs.Valid()
        invariant fs.files == old(fs.files)
        invariant fs.lockedFiles == old(fs.lockedFiles) && fs.lockedDirs == old(fs.lockedDirs)
        invariant Tree(fs.files, dirs0)
        invariant PruneProgress(dirs0, fs.dirs, fs.files, dir, done, fs.lockedDirs)
        decreases |todo|
      {
        var item :| item in todo;
        todo := todo - {item};
        if item in fs.dirs {
          DescentShrinks(dirs0, fs.dirs, dir, item);
          ghost var mid := fs.dirs;
          RemoveEmptyDirectories(fs, item);
          ghost var after := fs.dirs;
          var rest := fs.ReadDir(item);
          if rest == {} {
            var ok := fs.Rmdir(item);
            if !ok {
              PruneEntryDir(dirs0, mid, after, fs.dirs, fs.files, dir, done, item, fs.lockedDirs);
              PruneFinish(dirs0, fs.dirs, fs.files, dir, done + {item}, fs.lockedDirs);
              return;
            }
          } else if NoLockedBelow(fs.lockedDirs, dir) {
            var c :| c in rest;
            forall d | d in fs.lockedDirs
              ensures !Below(item, d)
            {
              BelowEntry(dir, item, d);
            }
            NotHollowAfterPrune(mid, after, fs.files, item, c, fs.lockedDirs);
          }
          PruneEntryDir(dirs0, mid, after, fs.dirs, fs.files, dir, done, item, fs.lockedDirs);
        } else {
          assert item[..|dir| + 1] == item;
          PruneEntryFile(dirs0, fs.dirs, fs.files, dir, done, item, fs.lockedDirs);
        }
        done := done + {item};
      }
      PruneFinish(dirs0, fs.dirs, fs.files, dir, done, fs.lockedDirs);
    }

    /**
     * `cleanUnusedFiles`: nothing to do without versions or without the asset
     * directory; otherwise sweep it and prune it, returning how many files were
     * deleted.  An asset path that is a regular file passes `existsSync` unless
     * the path ends in '/', and then `readdirSync` on it throws.
     */
    method CleanUnusedFiles(fs: FileSystem, versions: seq<BuildVersion>) returns (r: Result<nat>)
      requires fs.Valid()
      modifies fs
      ensures fs.Valid()
      ensures fs.lockedFiles == old(fs.lockedFiles) && fs.lockedDirs == old(fs.lockedDirs)
      ensures r.Err? <==> versions != [] && AssetsDirectory(assetsPattern) in old(fs.files) && !KeepsTrailingSlash(assetsPattern)
      ensures r.Err? ==> r.error == NotADirectory(AssetsDirectory(assetsPattern))
      ensures r.Ok? ==> r.value == if SweepRuns(old(fs.dirs), versions, AssetsDirectory(assetsPattern))
                                   then |Doomed(old(fs.files), AssetsDirectory(assetsPattern), ReferenceSet(versions, assetsPattern), fs.lockedFiles)|
                                   else 0
      ensures Swept(old(fs.files), old(fs.dirs), fs.files, fs.dirs, versions, assetsPattern,
                    AssetsDirectory(assetsPattern), fs.lockedFiles, fs.lockedDirs)
    {
      if |versions| == 0 {
        return Ok(0);
      }
      var refs := CollectReferences(versions, assetsPattern);
      var root := AssetsDirectory(assetsPattern);
      if !AssetPathExists(fs.files, fs.dirs, assetsPattern) {
        return Ok(0);
      }
      if root !in fs.dirs {
        return Err(NotADirectory(root));
      }
      var deleted := ProcessDirectory(fs, root, refs);
      RemoveEmptyDirectories(fs, root);
      return Ok(deleted);
    }

    /** The ledger one cycle leaves: the version it creates appended to the one it read, the oldest evicted. */
    function CycleLedger(previous: seq<BuildVersion>, generated: seq<BuildFile>, id: string, now: int): seq<BuildVersion>
      requires maxVersions > 0
    {
      NextLedger(previous, NewVersion(id, now, generated, assetsPattern), maxVersions)
    }

    /**
     * The effect of one `manageBuild` on the tree and its outcome: the dist
     * directory exists, the sweep ran with the ledger the cycle left, the cycle
     * fails exactly when the asset path names a regular file without a trailing
     * '/', and otherwise reports
     * the new id, the number of generated files and the retained version count.
     */
    ghost predicate Cycled(files0: set<Path>, dirs0: set<Path>, files1: set<Path>, dirs1: set<Path>,
                           lockedFiles: set<Path>, lockedDirs: set<Path>, previous: seq<BuildVersion>,
                           generated: seq<BuildFile>, id: string, now: int, r: Result<BuildResult>)
      requires maxVersions > 0
    {
      var kept := CycleLedger(previous, generated, id, now);
      var root := AssetsDirectory(assetsPattern);
      && [] in dirs1
      && Swept(files0, dirs0 + {[]}, files1, dirs1, kept, assetsPattern, root, lockedFiles, lockedDirs)
      && (r.Err? <==> root in files0 && !KeepsTrailingSlash(assetsPattern))
      && (r.Err? ==> r.error == NotADirectory(root))
      && (r.Ok? ==> r.value == BuildResult(id, |generated|, |kept|))
    }

    /**
     * `manageBuild`: make sure the dist directory exists, read the ledger, record
     * the asset files of this build as a new version, evict the oldest versions
     * over the bound, save the ledger and sweep.  The id and the timestamp are
     * parameters; a failed save is swallowed, a failed sweep rejects the call
     * after the ledger was already written.
     */
    method ManageBuild(fs: FileSystem, ledger: LedgerFile, generatedFiles: seq<BuildFile>, versionId: string, now: int)
      returns (r: Result<BuildResult>)
      requires fs.Valid() && maxVersions > 0
      modifies fs, ledger
      ensures fs.Valid()
      ensures fs.lockedFiles == old(fs.lockedFiles) && fs.lockedDirs == old(fs.lockedDirs)
      ensures ledger.writable == old(ledger.writable)
      ensures ledger.stored == if ledger.writable then Some(CycleLedger(old(ledger.Load()), generatedFiles, versionId, now))
                               else old(ledger.stored)
      ensures Cycled(old(fs.files), old(fs.dirs), fs.files, fs.dirs, fs.lockedFiles, fs.lockedDirs,
                     old(ledger.Load()), generatedFiles, versionId, now, r)
    {
      if !fs.Exists([]) {
        fs.MakeDist();
      }
      assert fs.dirs == old(fs.dirs) + {[]};
      var versions := ledger.Load();
      var assetsFiles := AssetFiles(generatedFiles, assetsPattern);
      var newVersion := BuildVersion(versionId, now, assetsFiles);
      versions := versions + [newVersion];
      versions := EvictOldest(versions, maxVersions);
      ledger.Save(versions);
      var cleaned := CleanUnusedFiles(fs, versions);
      assert versions != [] by {
        RetainKeepsNewest(old(ledger.Load()) + [newVersion], maxVersions);
      }
      match cleaned {
        case Err(e) => r := Err(e);
        case Ok(_) => r := Ok(BuildResult(versionId, |generatedFiles|, |versions|));
      }
    }

    /**
     * A cycle never deletes the files of the build it records: an existing file
     * whose dist-relative path is an asset-prefixed generated name survives.
     */
    lemma CycleKeepsNewBuild(files0: set<Path>, dirs0: set<Path>, files1: set<Path>, dirs1: set<Path>,
                             lockedFiles: set<Path>, lockedDirs: set<Path>, previous: seq<BuildVersion>,
                             generated: seq<BuildFile>, id: string, now: int, r: Result<BuildResult>)
      requires maxVersions > 0
      requires Cycled(files0, dirs0, files1, dirs1, lockedFiles, lockedDirs, previous, generated, id, now, r)
      ensures forall g, f :: g in generated && StartsWith(g.path, assetsPattern) && f in files0 && Render(f) == g.path ==> f in files1
    {
    }

    /**
     * After a successful cycle every file left under the asset directory is
     * referenced by a retained version, unless it could not be unlinked.
     */
    lemma CycleLeavesOnlyReferenced(files0: set<Path>, dirs0: set<Path>, files1: set<Path>, dirs1: set<Path>,
                                    lockedFiles: set<Path>, lockedDirs: set<Path>, previous: seq<BuildVersion>,
                                    generated: seq<BuildFile>, id: string, now: int, r: Result<BuildResult>)
      requires maxVersions > 0
      requires Cycled(files0, dirs0, files1, dirs1, lockedFiles, lockedDirs, previous, generated, id, now, r)
      requires r.Ok? && AssetsDirectory(assetsPattern) in dirs0 + {[]}
      ensures forall f :: f in files1 && Below(AssetsDirectory(assetsPattern), f) && f !in lockedFiles ==>
                Render(f) in ReferenceSet(CycleLedger(previous, generated, id, now), assetsPattern)
    {
    }

    /**
     * The ledger a cycle leaves is the newest `maxVersions` of the old ledger
     * followed by the new version, which is always kept, last; a successful cycle
     * reports that length and the number of generated files, filtered or not.
     */
    lemma CycleReportsBoundedLedger(files0: set<Path>, dirs0: set<Path>, files1: set<Path>, dirs1: set<Path>,
                                    lockedFiles: set<Path>, lockedDirs: set<Path>, previous: seq<BuildVersion>,
                                    generated: seq<BuildFile>, id: string, now: int, r: Result<BuildResult>)
      requires maxVersions > 0
      requires Cycled(files0, dirs0, files1, dirs1, lockedFiles, lockedDirs, previous, generated, id, now, r)
      ensures var kept := CycleLedger(previous, generated, id, now);
              && |kept| == Min(|previous| + 1, maxVersions)
              && kept == (previous + [NewVersion(id, now, generated, assetsPattern)])[|previous| + 1 - |kept|..]
              && kept[|kept| - 1] == BuildVersion(id, now, AssetFiles(generated, assetsPattern))
              && (r.Ok? ==> r.value.totalVersions == |kept| <= maxVersions && r.value.fileCount == |generated|)
    {
    }
  }
}
