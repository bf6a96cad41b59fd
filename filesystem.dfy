/**
 * The dist directory tree as the build manager sees it through Node's `fs`:
 * a set of regular files and a set of directories, both as paths relative
 * to the dist directory.  A file in `lockedFiles` cannot be unlinked and a
 * directory in `lockedDirs` cannot be removed (permission denied, busy):
 * those calls fail instead of changing the tree.
 */
module FileSystems {
  import opened Paths

  /** Files and directories form a tree: no path is both, and every entry's parent directory exists. */
  ghost predicate Tree(files: set<Path>, dirs: set<Path>) {
    && files !! dirs
    && (forall p :: p in files ==> p != [] && Parent(p) in dirs)
    && (forall p :: p in dirs && p != [] ==> Parent(p) in dirs)
  }

  /** Every proper prefix of an entry of the tree is a directory of the tree. */
  lemma {:induction false} AncestorIsDir(files: set<Path>, dirs: set<Path>, p: Path, k: nat)
    requires Tree(files, dirs)
    requires p in files || p in dirs
    requires k < |p|
    ensures p[..k] in dirs
    decreases |p| - k
  {
    var q := Parent(p);
    assert q in dirs;
    if k < |p| - 1 {
      AncestorIsDir(files, dirs, q, k);
      assert q[..k] == p[..k];
    }
  }

  /** A directory missing from the tree has nothing beneath it. */
  lemma NothingBelowMissingDir(files: set<Path>, dirs: set<Path>, d: Path, p: Path)
    requires Tree(files, dirs)
    requires d !in dirs
    requires p in files || p in dirs
    ensures !Below(d, p)
  {
    if Below(d, p) {
      AncestorIsDir(files, dirs, p, |d|);
    }
  }

  class FileSystem {
    var files: set<Path>
    var dirs: set<Path>
    var lockedFiles: set<Path>
    var lockedDirs: set<Path>

    ghost predicate Valid()
      reads this
    {
      Tree(files, dirs)
    }

    constructor (files: set<Path>, dirs: set<Path>, lockedFiles: set<Path>, lockedDirs: set<Path>)
      requires Tree(files, dirs)
      ensures Valid()
      ensures this.files == files && this.dirs == dirs
      ensures this.lockedFiles == lockedFiles && this.lockedDirs == lockedDirs
    {
      this.files := files;
      this.dirs := dirs;
      this.lockedFiles := lockedFiles;
      this.lockedDirs := lockedDirs;
    }

    /** `existsSync(p)`: true for a regular file and for a directory alike. */
    predicate Exists(p: Path): (b: bool)
      reads this
      ensures b <==> p in files || p in dirs
      ensures Valid() && p == [] ==> (b <==> [] in dirs)
      ensures Valid() && b && p != [] ==> Parent(p) in dirs
    {
      p in files || p in dirs
    }

    /** `readdirSync(dir)`, as full paths; the order in which the source sees them is left open. */
    function ReadDir(dir: Path): (entries: set<Path>)
      reads this
      ensures forall p :: p in entries <==> (p in files || p in dirs) && ChildOf(dir, p)
    {
      set p | p in files + dirs && ChildOf(dir, p)
    }

    /** `mkdirSync(distPath, { recursive: true })` for the dist directory itself. */
    method MakeDist()
      requires Valid()
      modifies this
      ensures Valid()
      ensures files == old(files) && dirs == old(dirs) + {[]}
      ensures lockedFiles == old(lockedFiles) && lockedDirs == old(lockedDirs)
    {
      dirs := dirs + {[]};
    }

    /** `unlinkSync(p)` on a regular file: it succeeds unless the file is locked. */
    method Unlink(p: Path) returns (ok: bool)
      requires Valid() && p in files
      modifies this
      ensures Valid()
      ensures ok <==> p !in lockedFiles
      ensures files == if ok then old(files) - {p} else old(files)
      ensures dirs == old(dirs)
      ensures lockedFiles == old(lockedFiles) && lockedDirs == old(lockedDirs)
    {
      ok := p !in lockedFiles;
      if ok {
        files := files - {p};
      }
    }

    /** `rmdirSync(p)` on an empty directory: it succeeds unless the directory is locked. */
    method Rmdir(p: Path) returns (ok: bool)
      requires Valid() && p in dirs && ReadDir(p) == {}
      modifies this
      ensures Valid()
      ensures ok <==> p !in lockedDirs
      ensures dirs == if ok then old(dirs) - {p} else old(dirs)
      ensures files == old(files)
      ensures lockedFiles == old(lockedFiles) && lockedDirs == old(lockedDirs)
    {
      ok := p !in lockedDirs;
      if ok {
        forall q | (q in files || q in dirs) && q != [] && Parent(q) == p
          ensures false
        {
          assert ChildOf(p, q);
        }
        dirs := dirs - {p};
      }
    }
  }
}
