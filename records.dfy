/**
 * The record shapes exchanged between the plugin hooks, the build manager
 * and the ledger file, and the two ways a cycle can fail.
 */
module Records {
  import opened Paths

  /** One tracked output file: its dist-relative path and the digest and stat values captured for it. */
  datatype BuildFile = BuildFile(path: string, hash: string, size: int, mtime: int)

  /** One completed build: an identifier, its creation time and the asset files it produced. */
  datatype BuildVersion = BuildVersion(id: string, timestamp: int, files: seq<BuildFile>)

  /** What `manageBuild` returns to the plugin. */
  datatype BuildResult = BuildResult(versionId: string, fileCount: nat, totalVersions: nat)

  datatype Option<T> = None | Some(value: T)

  /**
   * The exceptions the modelled filesystem calls can throw and nothing in the
   * build manager catches: `readdirSync` on a regular file, `readFileSync` on a
   * directory.
   */
  datatype Error = NotADirectory(path: Path) | IsADirectory(path: Path)

  datatype Result<T> = Ok(value: T) | Err(error: Error)
}
