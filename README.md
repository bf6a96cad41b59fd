# build-keeper, modelled in Dafny

build-keeper is a Vite plugin that keeps the asset files of the last few builds
in the `dist` directory. A build overwrites `dist/index.html` right away. Browsers that
still hold an older page keep asking for the old hashed bundles, so those must not
disappear at once. The plugin keeps a ledger, `.build-versions.json`, that lists the
asset files of each retained build. After every build it runs one retention cycle, in
this order:

1. It reads the ledger. A missing or unreadable ledger counts as empty.
2. It records the new build as a version, keeping only the files under the asset prefix.
3. It appends that version and evicts the oldest versions beyond `maxVersions`.
4. It saves the ledger.
5. It sweeps the asset directory: every regular file that no retained version lists
   is deleted.
6. It prunes the directories the sweep leaves empty.

This project models the TypeScript engine (`src/build-manager.ts`) and its older
JavaScript copy (`build-manager.js`). It also models the two plugin front ends around
them (`src/plugin.ts`, `build-manager-plugin.js`): the hook state machine that collects
the emitted asset names and runs the cycle at most once per build.

The files are:

- `paths.dfy`: module `Paths`. Tree paths as sequences of segments, and their
  forward-slash rendering. It also covers `startsWith` and the segment splitting of
  `path.join`.
- `records.dfy`: module `Records`. The records of `src/types.ts`, plus `Option`,
  `Result` and the two failures the model can raise.
- `filesystem.dfy`: module `FileSystems`. The dist tree as a mutable `FileSystem`:
  - a set of files and a set of directories, which always form a tree;
  - `readdirSync`, `mkdirSync`, `unlinkSync` and `rmdirSync`.
  Files and directories that resist deletion are given as sets. On them, `unlink` or
  `rmdir` fails instead of changing the tree.
- `ledger.dfy`: module `Ledger`.
  - The ledger file as a mutable `LedgerFile`: reading it never fails, and writing it
    may fail without effect.
  - The retention rule `Retain`, and its behaviour over many cycles.
- `retention.dfy`: module `Retention`. The specification functions of a cycle and the
  guarantees of a cycle as lemmas:
  - the new version's files;
  - the reference set;
  - the files a sweep deletes (`Doomed`) and what pruning may remove (`Pruned`);
  - the whole effect of a cleanup (`Swept`).
- `build_manager.dfy`: module `Manager`. The class `BuildManager`:
  - constructor defaults;
  - the recursive sweep `ProcessDirectory` and the bottom-up `RemoveEmptyDirectories`;
  - `CleanUnusedFiles` and `ManageBuild`;
  - the lemmas about a whole cycle.
- `legacy_build_manager.dfy`: module `LegacyManager`. The JavaScript manager, which is
  the same engine with the prefix `"assets/"` and the bound 3 fixed.
- `plugin.dfy`: module `Plugin`. `buildKeeper`'s option handling, the name collection,
  the record collection and the class `BuildKeeper` with its three hooks.
- `legacy_plugin.dfy`: module `LegacyPlugin`. `buildManagerPlugin`, the same hooks
  around the legacy manager.

How the model represents the system:

- **Paths.** Paths in the tree are relative to the dist directory. The sweep compares
  a file's rendered path (segments joined with `/`, backslashes turned into `/`) with
  the ledger's `path` strings.
- **Directory order.** `readdirSync` order is not fixed. Every walk picks its next
  entry arbitrarily from the entries not yet visited, and every proof holds for any
  order.
- **Asset directory.** The swept directory is
  `path.join(distPath, assetsPattern.replace('/', ''))`, modelled as written.
  - Only the first `/` is removed, so the prefix `"static/js/"` sweeps `dist/staticjs`
    (`NestedPrefixSweepsJoinedDirectory`).
  - The default prefix sweeps `dist/assets` (`DefaultAssetsDirectory`).

Facts about the code that shape the model:

- The code has no step that stages the new build's files around the sweep, and
  `maxVersions` is only defaulted with `|| 3`, with no range check.
  - The files of the build being recorded are protected only because the new version
    is always retained and so referenced (`CycleKeepsNewBuild`). That holds for bundle
    names in normal form: clean, relative and without backslashes.
  - A bundle name that is not in normal form, such as `"assets//a.js"` or one holding a
    backslash, is stored in the ledger as given. The sweep compares the file's rendered
    path (`"assets/a.js"`) with that string, finds no match and deletes the file that
    the build just wrote.
  - Files that were already missing before the cycle are not brought back.
- `existsSync` on a path with a trailing `/` is false when that path is a regular file.
  A prefix whose `replace('/', '')` still ends in `/` (such as `"static/js/"`) therefore
  skips the sweep and returns 0 when the asset path is a file; only a prefix without
  that trailing `/` reaches `readdirSync` and throws (`KeepsTrailingSlash`).
- Both plugins collect only names starting with `"assets/"`, whatever `assetsPattern`
  is. The end-to-end survival of the current build (`Plugin.ClosedBuildSurvives`) is
  therefore proved for the default prefix only.

## Model

| member | source | states |
|---|---|---|
| `Paths.StartsWith` | src/build-manager.ts:70 | a string starts with a prefix exactly when the prefix is no longer and agrees with it character by character |
| `Paths.Slashes` | src/build-manager.ts:104-106 | the rendered path has the same length, no backslash, every backslash turned into '/' and every other character unchanged |
| `Paths.Render` | src/build-manager.ts:104-106 | a tree path's relative string is its '/'-joined segments with every backslash turned into '/', of the same length |
| `Paths.Segments` | src/build-manager.ts:81 | joining path pieces yields only non-empty segments without '/' |
| `Paths.JoinSegments` | src/build-manager.ts:104-106 | a clean relative name split into segments and joined with '/' gives the name back |
| `Paths.RenderSegments` | src/build-manager.ts:104-108 | a clean name without backslashes is exactly the relative path the sweep computes for the tree path it names, so a ledger path of that form references exactly that file (a backslash in a file name makes it match the slash form, as the source's replace does) |
| `Paths.RemoveFirstSlash` | src/build-manager.ts:81 | `replace('/', '')` removes exactly the first '/', leaving a string without '/' unchanged |
| `FileSystems.FileSystem.Exists` | src/build-manager.ts:178 | a path exists exactly when it is a file or a directory; an existing path other than dist has its parent directory |
| `FileSystems.FileSystem.ReadDir` | src/build-manager.ts:94 | the entries listed are exactly the files and directories whose parent is the directory |
| `FileSystems.FileSystem.MakeDist` | src/build-manager.ts:178-183 | creating dist adds the dist directory and changes nothing else |
| `FileSystems.FileSystem.Unlink` | src/build-manager.ts:108-119 | an unlink succeeds exactly when the file does not resist; on failure the tree is unchanged |
| `FileSystems.FileSystem.Rmdir` | src/build-manager.ts:153-155 | removing an empty directory succeeds exactly when it does not resist, and the tree stays a tree |
| `Ledger.LedgerFile.Load` | src/build-manager.ts:28-40 | reading yields the stored ledger, or an empty one when nothing readable is stored |
| `Ledger.LedgerFile.Save` | src/build-manager.ts:43-51 | a writable file then holds exactly the saved ledger; a failed write leaves the old contents |
| `Ledger.Retain` | src/build-manager.ts:212-222 | the kept versions are a suffix of the ledger of length min(length, bound) |
| `Ledger.RetainKeepsNewest` | src/build-manager.ts:212-222 | with a bound of at least one, the newest version is always kept, last |
| `Ledger.RetainAppend` | src/build-manager.ts:215-222 | evicting, appending and evicting again is the same as appending everything and evicting once |
| `Ledger.RetainIgnoresOlder` | src/build-manager.ts:215-222 | versions older than the newest `maxVersions` have no influence on what is kept |
| `Ledger.LedgerAfterCycles` | src/build-manager.ts:212-222 | any number of cycles keeps exactly the newest `maxVersions` versions ever appended, oldest first (first in, first out by position) |
| `Ledger.LedgerAfterCyclesFromLonger` | src/build-manager.ts:212-222 | a ledger that an earlier, larger bound left longer than `maxVersions` also ends up as the newest `maxVersions` of everything once at least one cycle has run |
| `Ledger.LedgerLengthAfterCycles` | src/build-manager.ts:212-222 | from an empty ledger, k cycles leave min(k, maxVersions) versions, the last ones appended |
| `Retention.AssetFiles` | src/build-manager.ts:195-197 | the new version holds exactly the generated files whose path starts with the prefix, never more files than generated |
| `Retention.AssetFilesAppend` | src/build-manager.ts:195-197 | the filter keeps the generated files in their original order |
| `Retention.NewVersion` | src/build-manager.ts:205-209 | the new version carries the given id and timestamp and exactly the generated files under the prefix |
| `Retention.ReferenceSet` | src/build-manager.ts:67-74 | a path is referenced exactly when it starts with the prefix and some retained version lists it |
| `Retention.NewestReferenced` | src/build-manager.ts:205-212 | every asset file of the version a cycle appends is referenced by the ledger the cycle leaves |
| `Retention.SweepIdempotent` | src/build-manager.ts:108 | after the sweep deletes its files, the same reference set condemns nothing more |
| `Retention.PrunedOnlyHollow` | src/build-manager.ts:149-155 | pruning only ever removes a directory strictly below the asset root that has no file beneath it |
| `Retention.PrunedExactly` | src/build-manager.ts:141-163 | when nothing resists removal, pruning removes exactly the directories below the asset root that have no file beneath them, and never the root |
| `Retention.SecondSweepDeletesNothing` | src/build-manager.ts:54-138 | two cleanups in a row with the same ledger: the second deletes no file |
| `Manager.OrString` | src/build-manager.ts:13-17 | an undefined or empty string option takes the default, any other value is kept |
| `Manager.OrThree` | src/build-manager.ts:15 | an undefined or zero bound becomes 3, any other value is kept; the bound is never 0 |
| `Manager.AssetsDirectory` | src/build-manager.ts:81 | the swept directory has only non-empty segments without '/', and for a clean prefix it is the prefix with its first '/' removed |
| `Manager.KeepsTrailingSlash` | src/build-manager.ts:81-82 | the prefix still ends in '/' after its first '/' is removed exactly when it ends in '/' and has another '/' before that |
| `Manager.AssetPathExists` | src/build-manager.ts:81-82 | the asset path counts as existing exactly when it is a directory, or a file named without a trailing '/' |
| `Manager.DefaultAssetsDirectory` | src/build-manager.ts:81 | with the default prefix the swept directory is `dist/assets`, named without a trailing '/' |
| `Manager.NestedPrefixSweepsJoinedDirectory` | src/build-manager.ts:81-82 | with the prefix "static/js/" the swept directory is `dist/staticjs`, not the directory the ledger's paths lie in, and it is named with a trailing '/' |
| `Manager.CollectReferences` | src/build-manager.ts:66-74 | the nested loops build exactly the reference set of the ledger |
| `Manager.EvictOldest` | src/build-manager.ts:215-222 | shifting while over the bound leaves exactly the retained suffix |
| `Manager.BuildManager.constructor` | src/build-manager.ts:12-18 | each option falls back to its default when undefined or falsy; the ledger defaults to a file inside the chosen dist directory; `verbose` is off only when given as false |
| `Manager.BuildManager.ProcessDirectory` | src/build-manager.ts:93-125 | the walk deletes exactly the unreferenced files below the directory that can be unlinked, touches nothing else, and returns their number |
| `Manager.BuildManager.RemoveEmptyDirectories` | src/build-manager.ts:141-169 | no file changes; only directories below the given one that can be removed are removed; with nothing resisting, all of those with no file beneath are removed |
| `Manager.BuildManager.CleanUnusedFiles` | src/build-manager.ts:54-138 | with no versions or no asset directory nothing changes and 0 is returned; an asset path that is a regular file throws when the prefix does not keep a trailing '/' and returns 0 with no change when it does; a directory is swept and pruned and the number of deletions returned |
| `Manager.BuildManager.ManageBuild` | src/build-manager.ts:172-243 | dist exists afterwards; the ledger saved is the old one plus the new version, evicted to the bound; the tree is swept against that ledger, and the cycle fails exactly when the asset path is a file named without a trailing '/'; the result carries the id, the number of generated files and the ledger length |
| `Manager.BuildManager.CycleKeepsNewBuild` | src/build-manager.ts:195-228 | no file of the build being recorded whose rendered path equals its recorded name (a clean name without backslashes) is deleted by its own cycle |
| `Manager.BuildManager.CycleLeavesOnlyReferenced` | src/build-manager.ts:93-119 | after a successful cycle every file left under the asset directory is referenced, unless it could not be unlinked |
| `Manager.BuildManager.CycleReportsBoundedLedger` | src/build-manager.ts:212-242 | the ledger left is the newest min(old + 1, bound) versions with the new one last, and `totalVersions` reports its length while `fileCount` counts all generated files |
| `LegacyManager.BuildManager.constructor` | build-manager.js:5-9 | the dist directory and the ledger file are fixed next to the script's directory, and the bound is 3 |
| `LegacyManager.BuildManager.CleanUnusedFiles` | build-manager.js:41-111 | the same sweep of `dist/assets` against the "assets/" references, with no count returned |
| `LegacyManager.BuildManager.RemoveEmptyDirectories` | build-manager.js:114-138 | the same bottom-up pruning |
| `LegacyManager.BuildManager.ManageBuild` | build-manager.js:141-198 | the same cycle with the prefix "assets/" and the bound 3 |
| `LegacyManager.LegacyCycle` | build-manager.js:173-181 | a legacy cycle keeps min(old + 1, 3) versions, the new one last, and sweeps `dist/assets` |
| `Plugin.VerboseOf` | src/plugin.ts:26-30 | `verbose` is on unless given as false |
| `Plugin.ManagerOptionsOf` | src/plugin.ts:26-39 | the manager receives every option except `enabled`, with `verbose` set to the plugin's value |
| `Plugin.RecordAssetNames` | src/plugin.ts:58-62 | names already collected keep their place and the new ones follow in key order; a key is added exactly when it starts with "assets/"; no name is held twice |
| `Plugin.RecordOf` | src/plugin.ts:84-89 | a record has the file's name as its path and the hash, size and mtime probed for it |
| `Plugin.NamesFile` | src/plugin.ts:81-82 | a generated name counts as an existing file exactly when its tree path is a regular file and the name does not end in '/', since `path.join` keeps that '/' and `existsSync` is then false |
| `Plugin.FileNames` | src/plugin.ts:80-82 | the names kept are exactly the generated names that name an existing file, never more than generated |
| `Plugin.ExistingRecords` | src/plugin.ts:80-91 | a failed collection names a directory; a successful one has at most one record per name |
| `Plugin.TrailingSlashNameSkipped` | src/plugin.ts:81-82 | a name ending in '/' whose stem is a regular file yields no record |
| `Plugin.ExistingRecordsFailure` | src/plugin.ts:80-91 | collection fails exactly when a generated name is a directory, and the error names the first such name |
| `Plugin.ExistingRecordsExact` | src/plugin.ts:80-91 | a successful collection is, in order, the record of each generated name that is a file and nothing else |
| `Plugin.ExistingRecordsComplete` | src/plugin.ts:80-91 | every generated name that is a file has its record in a successful collection |
| `Plugin.RecordCount` | src/plugin.ts:80-91 | with distinct names, a successful collection has exactly one record per name that is a file |
| `Plugin.CollectRecords` | src/plugin.ts:77-91 | the loop computes exactly the collection above, in name order |
| `Plugin.ClosedBuildSurvives` | src/plugin.ts:80-94 | with the default prefix, every generated asset with a clean name without backslashes that existed before `closeBundle` still exists after its cycle |
| `Plugin.BuildKeeper.constructor` | src/plugin.ts:25-46 | `enabled: false` gives a plugin without hooks or manager; otherwise the manager gets the remaining options with `verbose`, which defaults to true |
| `Plugin.BuildKeeper.BuildStart` | src/plugin.ts:48-54 | the build is not complete and no names are collected |
| `Plugin.BuildKeeper.GenerateBundle` | src/plugin.ts:57-63 | the collected names grow, in key order, by exactly the new bundle keys starting with "assets/" |
| `Plugin.BuildKeeper.CloseBundle` | src/plugin.ts:66-101 | a repeated call changes nothing; the first call runs one cycle over the existing records, or stops without changes when a name is a directory; every failure becomes the outcome and none escapes |
| `LegacyPlugin.BuildManagerPlugin.constructor` | build-manager-plugin.js:18-21 | the plugin owns a legacy manager and starts with no names and the build not complete |
| `LegacyPlugin.BuildManagerPlugin.BuildStart` | build-manager-plugin.js:28-32 | the build is not complete and no names are collected |
| `LegacyPlugin.BuildManagerPlugin.GenerateBundle` | build-manager-plugin.js:35-41 | the collected names grow, in key order, by exactly the new bundle keys starting with "assets/" |
| `LegacyPlugin.BuildManagerPlugin.CloseBundle` | build-manager-plugin.js:44-75 | at most one legacy cycle per build, over the records of the names that exist; every failure is caught |

## Left out

- Real I/O and JSON are left out. The ledger file is an optional stored value: a missing or unparsable file reads as `None`. A write either stores the value or fails without effect. A ledger that parses to something other than a list of versions is not modelled.
- The ledger file is not part of the swept tree. The legacy manager keeps it outside `dist`; the TypeScript default keeps it in `dist` but not under the asset directory. Two configurations would put it in the sweep's reach, and neither is modelled: a prefix whose swept directory is `dist` itself, and a `versionsFile` option placed under the asset directory (src/build-manager.ts:14 accepts any path). In both, the ledger's own relative path is not referenced, so the source's sweep deletes the ledger in every cycle right after saving it.
- `generateVersionId` and `Date.now` are left out, because they read the clock and `Math.random`. The version id and the timestamp are parameters of `ManageBuild`.
- MD5 hashing and `statSync`'s size and modification time are left out, because they read file contents. They are the parameter `probe`. A failure of `statSync` or of the read for any other reason than the path being a directory is not modelled.
- Console output and the `verbose` flag's effect on it are left out, because they do not affect the ledger or the tree. `verbose` is kept as configuration only.
- `showVersions` and `cleanAllVersions` are left out: one only prints, the other deletes the ledger file on request and is not part of a cycle.
- `async` and the Promise around `manageBuild` and `closeBundle` are left out: the cycle runs start to finish with no interleaving. An error from `manageBuild` is a `Result`, which `closeBundle` turns into the outcome `Failed`.
- The `distPath` that `closeBundle` probes is treated as the manager's dist directory. The TypeScript plugin always probes `process.cwd()/dist`, so a different `distPath` option is assumed not to be used with it.
- `path.join` normalisation is partly left out. Tree paths drop empty segments, but `.` and `..` segments and absolute prefixes are not resolved, and names are assumed to carry none. The configuration strings built with `PathJoin` (the default dist and ledger locations) are not normalised at all, so they keep a doubled '/' that `path.join` would collapse, for instance under a working directory of "/".
- Paths, their string forms and `path.relative` are compared as POSIX strings. Windows drive letters and case-insensitive file systems are left out.
- `Manager.BuildManager.ManageBuild` requires a positive integer bound, so three cases of `src/build-manager.ts:215-222` are not modelled:
  - A zero bound cannot occur, because `|| 3` replaces it.
  - With a negative bound and `verbose` on (the default), `shift()` on the emptied array gives `undefined` and reading its `id` throws a TypeError. `manageBuild` then rejects before `saveVersions`, and `closeBundle` catches the error.
  - With a negative bound and `verbose: false`, the loop never ends.
  - A fractional bound between 0 and 1 is truthy, so `|| 3` keeps it. The loop then evicts every version, `[]` is saved and the sweep is skipped. The model's bound is an integer, so this case is excluded too.
- `Plugin.BuildKeeper.CloseBundle` requires `manager.maxVersions > 0` and inherits the gaps above. `src/plugin.ts:28,39` always passes `verbose`, which is on unless given as false, so a negative bound there ends in a caught TypeError. The legacy plugin's bound is always 3.
- `LegacyManager.BuildManager.constructor` keeps `__dirname + "/../dist"` and `__dirname + "/../.build-versions.json"` as unresolved strings. `path.join` would resolve the `..`, but only the strings' role as the dist directory and the ledger's location matters to the model.
- `FileSystems.FileSystem.MakeDist` always succeeds. A failing `mkdirSync` at src/build-manager.ts:182 is not modelled: for example EACCES, or ENOTDIR when a parent of dist is a regular file. The tree invariant also rules out a dist that is a regular file. In the source such a failure makes `manageBuild` reject before `readVersions`, and `closeBundle` catches it. So `Manager.BuildManager.ManageBuild` always ensures that dist exists.
- Failures of `readdirSync` and `statSync` inside the walk are not modelled, other than the asset path being a regular file. A concurrent change to the tree during the walk is not modelled either.
- Symbolic links, and any file type other than a regular file or a directory, are left out.
