/**
 * What one retention cycle computes, stated as functions: the new version's
 * files, the reference set of a ledger, the files a sweep deletes and the
 * directories pruning may remove.  The build manager's methods are proved
 * against these definitions; the lemmas here state the cycle's guarantees.
 */
module Retention {
  import opened Paths
  import opened Records
  import opened FileSystems
  import opened Ledger

  /** The generated files whose path starts with the asset prefix, in their original order. */
  function AssetFiles(files: seq<BuildFile>, pattern: string): (r: seq<BuildFile>)
    ensures |r| <= |files|
    ensures forall f :: f in r <==> f in files && StartsWith(f.path, pattern)
  {
    if files == [] then []
    else (if StartsWith(files[0].path, pattern) then [files[0]] else []) + AssetFiles(files[1..], pattern)
  }

  /** Filtering distributes over concatenation, so the relative order of the kept files is the input's. */
  lemma {:induction false} AssetFilesAppend(a: seq<BuildFile>, b: seq<BuildFile>, pattern: string)
    ensures AssetFiles(a + b, pattern) == AssetFiles(a, pattern) + AssetFiles(b, pattern)
    decreases |a|
  {
    if a == [] {
      assert a + b == b;
    } else {
      assert (a + b)[0] == a[0];
      assert (a + b)[1..] == a[1..] + b;
      AssetFilesAppend(a[1..], b, pattern);
    }
  }

  /** The version a cycle creates from the files the build reported. */
  function NewVersion(id: string, timestamp: int, generated: seq<BuildFile>, pattern: string): (v: BuildVersion)
    ensures v.id == id && v.timestamp == timestamp
    ensures |v.files| <= |generated|
    ensures forall f :: f in v.files <==> f in generated && StartsWith(f.path, pattern)
  {
    BuildVersion(id, timestamp, AssetFiles(generated, pattern))
  }

  /** The asset-prefixed paths one version lists. */
  function VersionPaths(v: BuildVersion, pattern: string): set<string>
  {
    set f | f in v.files && StartsWith(f.path, pattern) :: f.path
  }

  /**
   * The reference set: every asset-prefixed path listed by some version of the
   * ledger, and nothing else.
   */
  function ReferenceSet(versions: seq<BuildVersion>, pattern: string): (refs: set<string>)
    ensures forall v, f :: v in versions && f in v.files && StartsWith(f.path, pattern) ==> f.path in refs
    ensures forall p :: p in refs ==> StartsWith(p, pattern) && exists v, f :: v in versions && f in v.files && f.path == p
    decreases |versions|
  {
    if versions == [] then {}
    else
      var init := versions[..|versions| - 1];
      var last := versions[|versions| - 1];
      assert versions == init + [last];
      ReferenceSet(init, pattern) + VersionPaths(last, pattern)
  }

  /**
   * Every file a version appended by a cycle lists is in the reference set of the
   * ledger that cycle leaves, so the cycle's own sweep cannot select it.
   */
  lemma NewestReferenced(ledger: seq<BuildVersion>, version: BuildVersion, max: nat, pattern: string)
    requires max >= 1
    requires forall f :: f in version.files ==> StartsWith(f.path, pattern)
    ensures forall f :: f in version.files ==> f.path in ReferenceSet(NextLedger(ledger, version, max), pattern)
  {
  }

  /** The files a sweep of `root` deletes: below it, unreferenced, and not protected from unlinking. */
  ghost function Doomed(files: set<Path>, root: Path, refs: set<string>, locked: set<Path>): set<Path>
  {
    set f | f in files && Below(root, f) && Render(f) !in refs && f !in locked
  }

  /** The part of `Doomed` that lies under the entries `done` of `root`. */
  ghost function DoomedVia(files: set<Path>, root: Path, done: set<Path>, refs: set<string>, locked: set<Path>): set<Path>
  {
    set f | f in files && Below(root, f) && f[..|root| + 1] in done && Render(f) !in refs && f !in locked
  }

  lemma DisjointUnionCard(a: set<Path>, b: set<Path>)
    requires a !! b
    ensures |a + b| == |a| + |b|
  {
  }

  /** The entry of `root` under which a path below `root` lies. */
  lemma BelowEntry(root: Path, item: Path, f: Path)
    requires ChildOf(root, item)
    ensures Below(item, f) <==> Below(root, f) && f[..|root| + 1] == item && f != item
  {
  }

  /**
   * Walking a directory entry `item` of `root` after the entries `done`: what the
   * walk of `item` deletes from the remaining files is what it would have deleted
   * from the original ones, and it extends what was deleted so far without overlap.
   */
  lemma DoomedViaDir(files: set<Path>, dirs: set<Path>, root: Path, done: set<Path>, item: Path, refs: set<string>, locked: set<Path>)
    requires Tree(files, dirs) && item in dirs && ChildOf(root, item) && item !in done
    ensures var sofar := DoomedVia(files, root, done, refs, locked);
            var rest := files - sofar;
            && files - DoomedVia(files, root, done + {item}, refs, locked) == rest - Doomed(rest, item, refs, locked)
            && |DoomedVia(files, root, done + {item}, refs, locked)| == |sofar| + |Doomed(rest, item, refs, locked)|
  {
    var sofar := DoomedVia(files, root, done, refs, locked);
    var mine := Doomed(files, item, refs, locked);
    var next := DoomedVia(files, root, done + {item}, refs, locked);
    forall f | f in mine
      ensures f !in sofar && f in next
    {
      BelowEntry(root, item, f);
    }
    forall f | f in next
      ensures f in sofar + mine
    {
      BelowEntry(root, item, f);
    }
    assert next == sofar + mine;
    assert Doomed(files - sofar, item, refs, locked) == mine;
    DisjointUnionCard(sofar, mine);
  }

  /** Walking a file entry `item` of `root` after the entries `done`: the file is still there, and it is all the entry adds. */
  lemma DoomedViaFile(files: set<Path>, dirs: set<Path>, root: Path, done: set<Path>, item: Path, refs: set<string>, locked: set<Path>)
    requires Tree(files, dirs) && item in files && ChildOf(root, item) && item !in done
    ensures var sofar := DoomedVia(files, root, done, refs, locked);
            && item in files - sofar
            && (Render(item) !in refs && item !in locked ==>
                  && files - DoomedVia(files, root, done + {item}, refs, locked) == (files - sofar) - {item}
                  && |DoomedVia(files, root, done + {item}, refs, locked)| == |sofar| + 1)
            && (Render(item) in refs || item in locked ==>
                  DoomedVia(files, root, done + {item}, refs, locked) == sofar)
  {
    var sofar := DoomedVia(files, root, done, refs, locked);
    assert item[..|root| + 1] == item;
    forall f | f in files && Below(root, f) && f[..|root| + 1] == item
      ensures f == item
    {
      if |f| > |root| + 1 {
        AncestorIsDir(files, dirs, f, |root| + 1);
      }
    }
    if Render(item) !in refs && item !in locked {
      assert DoomedVia(files, root, done + {item}, refs, locked) == sofar + {item};
      DisjointUnionCard(sofar, {item});
    } else {
      assert DoomedVia(files, root, done + {item}, refs, locked) == sofar;
    }
  }

  /** Once every entry of `root` is walked, everything the sweep of `root` condemns has been reached. */
  lemma DoomedViaAll(files: set<Path>, dirs: set<Path>, root: Path, items: set<Path>, refs: set<string>, locked: set<Path>)
    requires Tree(files, dirs)
    requires forall p :: p in items <==> (p in files || p in dirs) && ChildOf(root, p)
    ensures DoomedVia(files, root, items, refs, locked) == Doomed(files, root, refs, locked)
  {
    forall f | f in files && Below(root, f)
      ensures f[..|root| + 1] in items
    {
      var top := f[..|root| + 1];
      assert top[..|root|] == root;
      if |f| > |root| + 1 {
        AncestorIsDir(files, dirs, f, |root| + 1);
      } else {
        assert top == f;
      }
    }
  }

  /** A sweep leaves nothing for a second sweep with the same reference set to delete. */
  lemma SweepIdempotent(files: set<Path>, root: Path, refs: set<string>, locked: set<Path>)
    ensures Doomed(files - Doomed(files, root, refs, locked), root, refs, locked) == {}
  {
  }

  ghost predicate Hollow(files: set<Path>, d: Path) {
    forall f :: f in files ==> !Below(d, f)
  }

  ghost predicate NoLockedBelow(locked: set<Path>, root: Path) {
    forall d :: d in locked ==> !Below(root, d)
  }

  /**
   * What pruning the directories under `root` may do: it removes only
   * directories strictly below `root` that could be removed, and, when none
   * below `root` resists removal, it removes every one that has no file
   * beneath it.
   */
  ghost predicate Pruned(dirs0: set<Path>, dirs1: set<Path>, files: set<Path>, root: Path, locked: set<Path>) {
    && dirs1 <= dirs0
    && (forall d :: d in dirs0 && d !in dirs1 ==> Below(root, d) && d !in locked)
    && (NoLockedBelow(locked, root) ==> forall d :: d in dirs0 && Below(root, d) && Hollow(files, d) ==> d !in dirs1)
  }

  /**
   * Pruning of `root` part-way through its entries: the directories removed so far
   * lie under the entries `done`, and, when nothing below `root` is locked, every
   * directory under those entries with no file beneath it is gone.
   */
  ghost predicate PruneProgress(dirs0: set<Path>, dirs: set<Path>, files: set<Path>, root: Path, done: set<Path>, locked: set<Path>) {
    && dirs <= dirs0
    && (forall d :: d in dirs0 && d !in dirs ==> Below(root, d) && d !in locked && d[..|root| + 1] in done)
    && (NoLockedBelow(locked, root) ==>
          forall d :: d in dirs0 && Below(root, d) && d[..|root| + 1] in done && Hollow(files, d) ==> d !in dirs)
  }

  /**
   * Pruning a subdirectory `item` of `root` (from `mid` to `after`) and then
   * removing `item` itself when it is empty (giving `final`) extends the progress
   * to `item`.
   */
  lemma PruneEntryDir(dirs0: set<Path>, mid: set<Path>, after: set<Path>, final: set<Path>, files: set<Path>,
                      root: Path, done: set<Path>, item: Path, locked: set<Path>)
    requires ChildOf(root, item) && item in mid
    requires PruneProgress(dirs0, mid, files, root, done, locked)
    requires Pruned(mid, after, files, item, locked)
    requires final == after || (final == after - {item} && item !in locked)
    requires NoLockedBelow(locked, root) && final == after ==> !Hollow(files, item)
    ensures PruneProgress(dirs0, final, files, root, done + {item}, locked)
  {
    assert item[..|root| + 1] == item;
    forall d | d in mid && d !in after
      ensures Below(root, d) && d[..|root| + 1] == item
    {
      BelowEntry(root, item, d);
    }
    if NoLockedBelow(locked, root) {
      forall d | d in locked
        ensures !Below(item, d)
      {
        BelowEntry(root, item, d);
      }
      forall d | d in dirs0 && Below(root, d) && d[..|root| + 1] == item && Hollow(files, d)
        ensures d !in final
      {
        BelowEntry(root, item, d);
      }
    }
  }

  /** A file entry of `root` has no directory beneath it, so walking it extends the progress for free. */
  lemma PruneEntryFile(dirs0: set<Path>, dirs: set<Path>, files: set<Path>, root: Path, done: set<Path>, item: Path, locked: set<Path>)
    requires Tree(files, dirs0) && item in files && ChildOf(root, item)
    requires PruneProgress(dirs0, dirs, files, root, done, locked)
    ensures PruneProgress(dirs0, dirs, files, root, done + {item}, locked)
  {
    forall d | d in dirs0 && Below(root, d)
      ensures d[..|root| + 1] != item
    {
      if |d| > |root| + 1 {
        AncestorIsDir(files, dirs0, d, |root| + 1);
      } else {
        assert d[..|root| + 1] == d;
      }
    }
  }

  /**
   * Pruning of `root` is complete once every entry is walked, and also when it is
   * abandoned early because something below `root` is locked.
   */
  lemma PruneFinish(dirs0: set<Path>, dirs: set<Path>, files: set<Path>, root: Path, done: set<Path>, locked: set<Path>)
    requires Tree(files, dirs0)
    requires PruneProgress(dirs0, dirs, files, root, done, locked)
    requires NoLockedBelow(locked, root) ==> forall p :: p in dirs0 && ChildOf(root, p) ==> p in done
    ensures Pruned(dirs0, dirs, files, root, locked)
  {
    if NoLockedBelow(locked, root) {
      forall d | d in dirs0 && Below(root, d)
        ensures d[..|root| + 1] in done
      {
        if |d| > |root| + 1 {
          AncestorIsDir(files, dirs0, d, |root| + 1);
        } else {
          assert d[..|root| + 1] == d;
        }
        assert d[..|root| + 1][..|root|] == root;
      }
    }
  }

  /** A directory that survives pruning with an entry still in it has a file beneath it. */
  lemma NotHollowAfterPrune(mid: set<Path>, after: set<Path>, files: set<Path>, item: Path, c: Path, locked: set<Path>)
    requires Pruned(mid, after, files, item, locked) && NoLockedBelow(locked, item)
    requires (c in files || c in after) && ChildOf(item, c)
    ensures !Hollow(files, c) || c in files
    ensures !Hollow(files, item)
  {
  }

  /** A directory pruning removed had no file beneath it. */
  lemma PrunedOnlyHollow(files: set<Path>, dirs0: set<Path>, dirs1: set<Path>, root: Path, locked: set<Path>, d: Path)
    requires Tree(files, dirs1) && Pruned(dirs0, dirs1, files, root, locked)
    requires d in dirs0 && d !in dirs1
    ensures Below(root, d) && Hollow(files, d)
  {
    forall f | f in files
      ensures !Below(d, f)
    {
      NothingBelowMissingDir(files, dirs1, d, f);
    }
  }

  /**
   * With nothing locked below `root`, pruning removes exactly the directories
   * strictly below `root` that have no file beneath them.
   */
  lemma PrunedExactly(files: set<Path>, dirs0: set<Path>, dirs1: set<Path>, root: Path, locked: set<Path>)
    requires Tree(files, dirs1) && Pruned(dirs0, dirs1, files, root, locked)
    requires NoLockedBelow(locked, root)
    ensures forall d :: d in dirs1 <==> d in dirs0 && !(Below(root, d) && Hollow(files, d))
  {
    forall d | d in dirs0 && !(Below(root, d) && Hollow(files, d))
      ensures d in dirs1
    {
      if d !in dirs1 {
        PrunedOnlyHollow(files, dirs0, dirs1, root, locked, d);
      }
    }
  }

  /** The sweep runs when the ledger is not empty and the assets directory exists as a directory. */
  ghost predicate SweepRuns(dirs0: set<Path>, versions: seq<BuildVersion>, root: Path) {
    versions != [] && root in dirs0
  }

  /**
   * The effect of one cleanup on the tree: when it runs, exactly the condemned
   * files are gone and the directories are pruned; otherwise nothing changes.
   */
  ghost predicate Swept(files0: set<Path>, dirs0: set<Path>, files1: set<Path>, dirs1: set<Path>,
                        versions: seq<BuildVersion>, pattern: string, root: Path,
                        lockedFiles: set<Path>, lockedDirs: set<Path>)
  {
    if SweepRuns(dirs0, versions, root) then
      && files1 == files0 - Doomed(files0, root, ReferenceSet(versions, pattern), lockedFiles)
      && Pruned(dirs0, dirs1, files1, root, lockedDirs)
    else
      files1 == files0 && dirs1 == dirs0
  }

  /** Two cleanups in a row with the same ledger: the second deletes nothing. */
  lemma SecondSweepDeletesNothing(files0: set<Path>, dirs0: set<Path>, files1: set<Path>, dirs1: set<Path>,
                                  files2: set<Path>, dirs2: set<Path>,
                                  versions: seq<BuildVersion>, pattern: string, root: Path,
                                  lockedFiles: set<Path>, lockedDirs: set<Path>)
    requires Swept(files0, dirs0, files1, dirs1, versions, pattern, root, lockedFiles, lockedDirs)
    requires Swept(files1, dirs1, files2, dirs2, versions, pattern, root, lockedFiles, lockedDirs)
    ensures SweepRuns(dirs1, versions, root) <==> SweepRuns(dirs0, versions, root)
    ensures SweepRuns(dirs1, versions, root) ==> Doomed(files1, root, ReferenceSet(versions, pattern), lockedFiles) == {}
    ensures files2 == files1
  {
  }

  /** The directories strictly below `d`: the measure that bounds the depth of a recursive walk. */
  ghost function DirsBelow(dirs: set<Path>, d: Path): set<Path>
  {
    set e | e in dirs && Below(d, e)
  }

  lemma {:induction false} SubsetCard(a: set<Path>, b: set<Path>)
    requires a <= b
    ensures |a| <= |b|
    decreases |a|
  {
    if a != {} {
      var x :| x in a;
      SubsetCard(a - {x}, b - {x});
    }
  }

  /** A walk that descends from `dir` into its entry `item` has fewer directories left below it. */
  lemma DescentShrinks(dirs0: set<Path>, dirs1: set<Path>, dir: Path, item: Path)
    requires dirs1 <= dirs0 && item in dirs0 && ChildOf(dir, item)
    ensures |DirsBelow(dirs1, item)| < |DirsBelow(dirs0, dir)|
  {
    var small := DirsBelow(dirs1, item);
    var big := DirsBelow(dirs0, dir);
    forall e | e in small
      ensures e in big - {item}
    {
      assert e[..|dir|] == e[..|item|][..|dir|];
    }
    SubsetCard(small, big - {item});
  }
}
