/**
 * The Vite plugin of src/plugin.ts, `buildKeeper`: a small state machine over
 * the build hooks.  `buildStart` resets it, `generateBundle` collects the
 * emitted asset names, and `closeBundle` turns the names that exist under the
 * dist directory into file records and runs one retention cycle, at most once
 * per build, catching every failure.
 *
 * The tree the plugin probes is the manager's dist tree.  Hashing and `stat`
 * are the parameter `probe`, which gives the hash, size and modification time
 * of a name.
 */
module Plugin {
  import opened Paths
  import opened Records
  import opened FileSystems
  import opened Ledger
  import opened Manager

  /** The prefix `generateBundle` filters on; it is fixed, whatever the manager's prefix is. */
  const AssetsPrefix: string := "assets/"

  /** What hashing and `statSync` report for a generated file. */
  datatype FileStat = FileStat(hash: string, size: int, mtime: int)

  /** The plugin's option bag: its own two flags and the options it forwards to the manager. */
  datatype KeeperOptions = KeeperOptions(
    enabled: Option<bool>,
    verbose: Option<bool>,
    distPath: Option<string>,
    versionsFile: Option<string>,
    maxVersions: Option<int>,
    assetsPattern: Option<string>)

  /** `verbose = true` as a destructuring default: only an undefined value takes the default. */
  function VerboseOf(options: KeeperOptions): (verbose: bool)
    ensures verbose <==> options.verbose != Some(false)
  {
    if options.verbose.Some? then options.verbose.value else true
  }

  /** `{ ...managerOptions, verbose }`: the remaining options with the plugin's own `verbose`. */
  function ManagerOptionsOf(options: KeeperOptions): (forwarded: ManagerOptions)
    ensures forwarded.distPath == options.distPath && forwarded.versionsFile == options.versionsFile
    ensures forwarded.maxVersions == options.maxVersions && forwarded.assetsPattern == options.assetsPattern
    ensures forwarded.verbose == Some(VerboseOf(options))
  {
    ManagerOptions(options.distPath, options.versionsFile, options.maxVersions, options.assetsPattern, Some(VerboseOf(options)))
  }

  /** No name occurs twice: the insertion-ordered contents of a JavaScript `Set`. */
  predicate Distinct(names: seq<string>) {
    forall i, j :: 0 <= i < j < |names| ==> names[i] != names[j]
  }

  /**
   * `generateBundle`'s loop: add every bundle key that starts with "assets/" to
   * the set of names.  Names already present keep their place; new ones follow
   * in key order.
   */
  method RecordAssetNames(names: seq<string>, keys: seq<string>) returns (r: seq<string>)
    requires Distinct(names)
    ensures r == names + NewAssetNames(names, keys)
    ensures Distinct(r)
    ensures |names| <= |r| && r[..|names|] == names
    ensures forall n :: n in r <==> n in names || (n in keys && StartsWith(n, AssetsPrefix))
  {
    r := names;
    assert keys[0..] == keys;
    for i := 0 to |keys|
      invariant r + NewAssetNames(r, keys[i..]) == names + NewAssetNames(names, keys)
      invariant Distinct(r)
      invariant |names| <= |r| && r[..|names|] == names
      invariant forall n :: n in r <==> n in names || (n in keys[..i] && StartsWith(n, AssetsPrefix))
    {
      assert keys[..i + 1] == keys[..i] + [keys[i]];
      assert keys[i..][1..] == keys[i + 1..];
      if StartsWith(keys[i], AssetsPrefix) && keys[i] !in r {
        assert r + ([keys[i]] + NewAssetNames(r + [keys[i]], keys[i + 1..])) == (r + [keys[i]]) + NewAssetNames(r + [keys[i]], keys[i + 1..]);
        r := r + [keys[i]];
      }
    }
    assert keys[..|keys|] == keys;
  }

  /**
   * The names a run of bundle keys adds to `seen`, in key order: each key that
   * starts with "assets/" and is neither in `seen` nor added before it.
   */
  function NewAssetNames(seen: seq<string>, keys: seq<string>): seq<string>
    decreases |keys|
  {
    if keys == [] then []
    else if StartsWith(keys[0], AssetsPrefix) && keys[0] !in seen then [keys[0]] + NewAssetNames(seen + [keys[0]], keys[1..])
    else NewAssetNames(seen, keys[1..])
  }

  /** The record `closeBundle` makes for an existing generated file. */
  function RecordOf(name: string, probe: string -> FileStat): (record: BuildFile)
    ensures record.path == name
    ensures FileStat(record.hash, record.size, record.mtime) == probe(name)
  {
    BuildFile(name, probe(name).hash, probe(name).size, probe(name).mtime)
  }

  /** Records followed by the outcome of the remaining names. */
  function Prepend(records: seq<BuildFile>, rest: Result<seq<BuildFile>>): Result<seq<BuildFile>> {
    match rest
    case Ok(more) => Ok(records + more)
    case Err(e) => Err(e)
  }

  /**
   * `existsSync(path.join(distPath, name))` for a name that is not a directory:
   * `path.join` keeps a trailing '/', and a regular file named with one does not exist.
   */
  predicate NamesFile(files: set<Path>, name: string): (b: bool)
    ensures b <==> Segments(name) in files && (name == "" || name[|name| - 1] != '/')
  {
    Segments(name) in files && !(name != "" && name[|name| - 1] == '/')
  }

  /** The generated names whose path under the dist directory is a regular file, in their order. */
  function FileNames(files: set<Path>, names: seq<string>): (r: seq<string>)
    ensures |r| <= |names|
    ensures forall n :: n in r <==> n in names && NamesFile(files, n)
    decreases |names|
  {
    if names == [] then []
    else (if NamesFile(files, names[0]) then [names[0]] else []) + FileNames(files, names[1..])
  }

  /** Filtering distinct names yields distinct names. */
  lemma {:induction false} FileNamesDistinct(files: set<Path>, names: seq<string>)
    requires Distinct(names)
    ensures Distinct(FileNames(files, names))
    decreases |names|
  {
    if names != [] {
      var rest := FileNames(files, names[1..]);
      assert Distinct(names[1..]) by {
        forall i, j | 0 <= i < j < |names[1..]|
          ensures names[1..][i] != names[1..][j]
        {
          assert names[1..][i] == names[i + 1] && names[1..][j] == names[j + 1];
        }
      }
      FileNamesDistinct(files, names[1..]);
      if NamesFile(files, names[0]) {
        assert names[0] !in names[1..] by {
          forall k | 0 <= k < |names[1..]|
            ensures names[1..][k] != names[0]
          {
            assert names[1..][k] == names[k + 1];
          }
        }
        assert names[0] !in rest;
        var r := [names[0]] + rest;
        forall i, j | 0 <= i < j < |r|
          ensures r[i] != r[j]
        {
          if i == 0 {
            assert r[j] == rest[j - 1];
          } else {
            assert r[i] == rest[i - 1] && r[j] == rest[j - 1];
          }
        }
      } else {
        assert FileNames(files, names) == rest;
      }
    }
  }

  /** A sequence without repetitions has as many elements as the set of its elements. */
  lemma {:induction false} DistinctCard(s: seq<string>)
    requires Distinct(s)
    ensures |set x | x in s| == |s|
    decreases |s|
  {
    if s != [] {
      var init := s[..|s| - 1];
      var last := s[|s| - 1];
      assert Distinct(init) by {
        forall i, j | 0 <= i < j < |init|
          ensures init[i] != init[j]
        {
          assert init[i] == s[i] && init[j] == s[j];
        }
      }
      DistinctCard(init);
      assert last !in init by {
        forall k | 0 <= k < |init|
          ensures init[k] != last
        {
          assert init[k] == s[k];
        }
      }
      assert s == init + [last];
      assert (set x | x in s) == (set x | x in init) + {last};
    }
  }

  /**
   * The records `closeBundle` collects: one per name whose path under the dist
   * directory is a regular file, in the order of the names; a name that is a
   * directory makes reading it for its hash fail, which ends the collection.
   */
  function ExistingRecords(files: set<Path>, dirs: set<Path>, names: seq<string>, probe: string -> FileStat): (r: Result<seq<BuildFile>>)
    ensures r.Err? ==> r.error.IsADirectory? && r.error.path in dirs
    ensures r.Ok? ==> |r.value| <= |names|
    decreases |names|
  {
    if names == [] then Ok([])
    else
      var p := Segments(names[0]);
      if p in dirs then Err(IsADirectory(p))
      else if NamesFile(files, names[0]) then Prepend([RecordOf(names[0], probe)], ExistingRecords(files, dirs, names[1..], probe))
      else ExistingRecords(files, dirs, names[1..], probe)
  }

  /**
   * A generated name ending in '/' whose stem is a regular file does not exist
   * for `existsSync`, so it yields no record.
   */
  lemma TrailingSlashNameSkipped(files: set<Path>, dirs: set<Path>, name: string, probe: string -> FileStat)
    requires name != "" && name[|name| - 1] == '/' && Segments(name) in files && Segments(name) !in dirs
    ensures ExistingRecords(files, dirs, [name], probe) == Ok([])
  {
    assert !NamesFile(files, name);
    assert [name][1..] == [];
  }

  /** The collection fails exactly when some name is a directory, and then it names the first such name. */
  lemma {:induction false} ExistingRecordsFailure(files: set<Path>, dirs: set<Path>, names: seq<string>, probe: string -> FileStat)
    ensures var r := ExistingRecords(files, dirs, names, probe);
            && (r.Err? <==> exists n :: n in names && Segments(n) in dirs)
            && (r.Err? ==> exists k :: 0 <= k < |names| && Segments(names[k]) in dirs && r.error == IsADirectory(Segments(names[k]))
                                      && forall j :: 0 <= j < k ==> Segments(names[j]) !in dirs)
    decreases |names|
  {
    if names == [] {
    } else if Segments(names[0]) in dirs {
      assert names[0] in names;
    } else {
      var tail := names[1..];
      ExistingRecordsFailure(files, dirs, tail, probe);
      var rest := ExistingRecords(files, dirs, tail, probe);
      var r := ExistingRecords(files, dirs, names, probe);
      assert r.Err? <==> rest.Err?;
      if exists n :: n in names && Segments(n) in dirs {
        var n :| n in names && Segments(n) in dirs;
        assert n in tail;
      }
      if rest.Err? {
        var k :| 0 <= k < |tail| && Segments(tail[k]) in dirs && rest.error == IsADirectory(Segments(tail[k]))
                 && forall j :: 0 <= j < k ==> Segments(tail[j]) !in dirs;
        assert tail[k] == names[k + 1];
        forall j | 0 <= j < k + 1
          ensures Segments(names[j]) !in dirs
        {
          if j > 0 {
            assert names[j] == tail[j - 1];
          }
        }
      }
    }
  }

  /**
   * A collection that succeeds yields, in order, the record of each name that
   * is a file and nothing else.
   */
  lemma {:induction false} ExistingRecordsExact(files: set<Path>, dirs: set<Path>, names: seq<string>, probe: string -> FileStat)
    ensures var r := ExistingRecords(files, dirs, names, probe);
            r.Ok? ==> && |r.value| == |FileNames(files, names)|
                      && forall i :: 0 <= i < |r.value| ==> r.value[i] == RecordOf(FileNames(files, names)[i], probe)
    decreases |names|
  {
    if names != [] && Segments(names[0]) !in dirs {
      var tail := names[1..];
      ExistingRecordsExact(files, dirs, tail, probe);
      var rest := ExistingRecords(files, dirs, tail, probe);
      if NamesFile(files, names[0]) {
        assert FileNames(files, names) == [names[0]] + FileNames(files, tail);
        if rest.Ok? {
          assert ExistingRecords(files, dirs, names, probe).value == [RecordOf(names[0], probe)] + rest.value;
        }
      } else {
        assert FileNames(files, names) == FileNames(files, tail);
      }
    }
  }

  /** Every name that is a file has its record in a successful collection. */
  lemma ExistingRecordsComplete(files: set<Path>, dirs: set<Path>, names: seq<string>, probe: string -> FileStat)
    ensures var r := ExistingRecords(files, dirs, names, probe);
            r.Ok? ==> forall n :: n in names && NamesFile(files, n) ==> RecordOf(n, probe) in r.value
  {
    ExistingRecordsExact(files, dirs, names, probe);
    var r := ExistingRecords(files, dirs, names, probe);
    if r.Ok? {
      var kept := FileNames(files, names);
      forall n | n in names && NamesFile(files, n)
        ensures RecordOf(n, probe) in r.value
      {
        var i :| 0 <= i < |kept| && kept[i] == n;
        assert r.value[i] == RecordOf(n, probe);
      }
    }
  }

  /** With distinct generated names, there are exactly as many records as generated names that are files. */
  lemma RecordCount(files: set<Path>, dirs: set<Path>, names: seq<string>, probe: string -> FileStat)
    requires Distinct(names)
    requires ExistingRecords(files, dirs, names, probe).Ok?
    ensures |ExistingRecords(files, dirs, names, probe).value| == |set n | n in names && NamesFile(files, n)|
  {
    ExistingRecordsExact(files, dirs, names, probe);
    var kept := FileNames(files, names);
    FileNamesDistinct(files, names);
    DistinctCard(kept);
    assert (set x | x in kept) == (set n | n in names && NamesFile(files, n));
  }

  /** `closeBundle`'s loop over the collected names, with the failure it can throw. */
  method CollectRecords(fs: FileSystem, names: seq<string>, probe: string -> FileStat) returns (r: Result<seq<BuildFile>>)
    ensures r == ExistingRecords(fs.files, fs.dirs, names, probe)
  {
    var records: seq<BuildFile> := [];
    assert names[0..] == names;
    ghost var all := ExistingRecords(fs.files, fs.dirs, names, probe);
    assert all.Ok? ==> [] + all.value == all.value;
    for i := 0 to |names|
      invariant all == Prepend(records, ExistingRecords(fs.files, fs.dirs, names[i..], probe))
    {
      assert names[i..][1..] == names[i + 1..];
      var p := Segments(names[i]);
      if p in fs.dirs {
        return Err(IsADirectory(p));
      }
      if NamesFile(fs.files, names[i]) {
        ghost var rest := ExistingRecords(fs.files, fs.dirs, names[i + 1..], probe);
        assert rest.Ok? ==> records + ([RecordOf(names[i], probe)] + rest.value) == (records + [RecordOf(names[i], probe)]) + rest.value;
        records := records + [RecordOf(names[i], probe)];
      }
    }
    assert names[|names|..] == [];
    assert records + [] == records;
    return Ok(records);
  }

  /** What `closeBundle` ends with: a repeated call, a caught failure, or a completed cycle. */
  datatype CloseOutcome = AlreadyClosed | Failed(error: Error) | Managed(result: BuildResult)

  /** The cycle's result behind an outcome that ran. */
  function CycleResult(outcome: CloseOutcome): Result<BuildResult>
    requires !outcome.AlreadyClosed?
  {
    match outcome
    case Failed(e) => Err(e)
    case Managed(v) => Ok(v)
  }

  /**
   * End to end: when `closeBundle` ran a cycle with the default prefix, every
   * generated asset name that was a file in the dist tree before is a file
   * after, so the build being recorded is never swept.
   */
  lemma ClosedBuildSurvives(m: BuildManager, files0: set<Path>, dirs0: set<Path>, files1: set<Path>, dirs1: set<Path>,
                            lockedFiles: set<Path>, lockedDirs: set<Path>, previous: seq<BuildVersion>,
                            names: seq<string>, probe: string -> FileStat, id: string, now: int, r: Result<BuildResult>)
    requires m.maxVersions > 0 && m.assetsPattern == AssetsPrefix
    requires forall n :: n in names ==> StartsWith(n, AssetsPrefix) && CleanName(n) && '\\' !in n
    requires ExistingRecords(files0, dirs0, names, probe).Ok?
    requires m.Cycled(files0, dirs0, files1, dirs1, lockedFiles, lockedDirs, previous,
                      ExistingRecords(files0, dirs0, names, probe).value, id, now, r)
    ensures forall n :: n in names && Segments(n) in files0 ==> Segments(n) in files1
  {
    var records := ExistingRecords(files0, dirs0, names, probe).value;
    ExistingRecordsComplete(files0, dirs0, names, probe);
    m.CycleKeepsNewBuild(files0, dirs0, files1, dirs1, lockedFiles, lockedDirs, previous, records, id, now, r);
    forall n | n in names && Segments(n) in files0
      ensures Segments(n) in files1
    {
      assert NamesFile(files0, n);
      RenderSegments(n);
      assert RecordOf(n, probe) in records;
    }
  }

  class BuildKeeper {
    /** False when the plugin was created with `enabled: false`: it then has no hooks and no manager. */
    const hasHooks: bool
    const verbose: bool
    const manager: BuildManager?
    var isBuildComplete: bool
    var generatedFiles: seq<string>

    ghost predicate Valid()
      reads this
    {
      && (hasHooks <==> manager != null)
      && Distinct(generatedFiles)
      && forall n :: n in generatedFiles ==> StartsWith(n, AssetsPrefix)
    }

    /** `buildKeeper(options)`: the `enabled` bypass, the `verbose` default, and the manager it configures. */
    constructor (options: KeeperOptions, cwd: string)
      ensures Valid()
      ensures hasHooks <==> options.enabled != Some(false)
      ensures verbose == VerboseOf(options)
      ensures hasHooks ==> manager.ConfiguredBy(ManagerOptionsOf(options), cwd) && manager.verbose == verbose
      ensures !isBuildComplete && generatedFiles == []
    {
      hasHooks := options.enabled != Some(false);
      verbose := VerboseOf(options);
      if options.enabled != Some(false) {
        manager := new BuildManager(ManagerOptionsOf(options), cwd);
      } else {
        manager := null;
      }
      isBuildComplete := false;
      generatedFiles := [];
    }

    /** `buildStart`: a new build has not closed and has generated nothing yet. */
    method BuildStart()
      requires Valid() && hasHooks
      modifies this
      ensures Valid()
      ensures !isBuildComplete && generatedFiles == []
    {
      isBuildComplete := false;
      generatedFiles := [];
    }

    /** `generateBundle`: remember the bundle's asset names. */
    method GenerateBundle(keys: seq<string>)
      requires Valid() && hasHooks
      modifies this
      ensures Valid()
      ensures isBuildComplete == old(isBuildComplete)
      ensures generatedFiles == old(generatedFiles) + NewAssetNames(old(generatedFiles), keys)
      ensures |old(generatedFiles)| <= |generatedFiles| && generatedFiles[..|old(generatedFiles)|] == old(generatedFiles)
      ensures forall n :: n in generatedFiles <==> n in old(generatedFiles) || (n in keys && StartsWith(n, AssetsPrefix))
    {
      generatedFiles := RecordAssetNames(generatedFiles, keys);
    }

    /**
     * `closeBundle`: the first call after `buildStart` collects the records of
     * the generated names and runs one cycle; any failure is caught and
     * becomes the outcome.  Later calls return at once.
     */
    method CloseBundle(fs: FileSystem, ledger: LedgerFile, probe: string -> FileStat, versionId: string, now: int)
      returns (outcome: CloseOutcome)
      requires Valid() && hasHooks && fs.Valid() && manager.maxVersions > 0
      modifies this, fs, ledger
      ensures Valid() && isBuildComplete && generatedFiles == old(generatedFiles)
      ensures fs.Valid() && fs.lockedFiles == old(fs.lockedFiles) && fs.lockedDirs == old(fs.lockedDirs)
      ensures ledger.writable == old(ledger.writable)
      ensures old(isBuildComplete) ==> outcome == AlreadyClosed
      ensures old(isBuildComplete) || ExistingRecords(old(fs.files), old(fs.dirs), generatedFiles, probe).Err? ==>
                fs.files == old(fs.files) && fs.dirs == old(fs.dirs) && ledger.stored == old(ledger.stored)
      ensures !old(isBuildComplete) && ExistingRecords(old(fs.files), old(fs.dirs), generatedFiles, probe).Err? ==>
                outcome == Failed(ExistingRecords(old(fs.files), old(fs.dirs), generatedFiles, probe).error)
      ensures !old(isBuildComplete) && ExistingRecords(old(fs.files), old(fs.dirs), generatedFiles, probe).Ok? ==>
                var records := ExistingRecords(old(fs.files), old(fs.dirs), generatedFiles, probe).value;
                && !outcome.AlreadyClosed?
                && manager.Cycled(old(fs.files), old(fs.dirs), fs.files, fs.dirs, fs.lockedFiles, fs.lockedDirs,
                                  old(ledger.Load()), records, versionId, now, CycleResult(outcome))
                && ledger.stored == if ledger.writable then Some(manager.CycleLedger(old(ledger.Load()), records, versionId, now))
                                    else old(ledger.stored)
    {
      if isBuildComplete {
        return AlreadyClosed;
      }
      isBuildComplete := true;
      var records := CollectRecords(fs, generatedFiles, probe);
      if records.Err? {
        return Failed(records.error);
      }
      ghost var files0, dirs0, previous := fs.files, fs.dirs, ledger.Load();
      var result := manager.ManageBuild(fs, ledger, records.value, versionId, now);
      match result {
        case Err(e) => outcome := Failed(e);
        case Ok(v) => outcome := Managed(v);
      }
      assert CycleResult(outcome) == result;
      assert manager.Cycled(files0, dirs0, fs.files, fs.dirs, fs.lockedFiles, fs.lockedDirs,
                            previous, records.value, versionId, now, CycleResult(outcome));
    }
  }
}
