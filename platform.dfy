/** The operating-system and host facts the two components consult. Path syntax is not
    modelled: the primitives are carried as values, and the model only fixes how the
    code reacts to what they answer. */
module Platform {
  import opened Base

  /** Path primitives of System.IO.Path for the platform the agent was built for. */
  datatype Os = Os(
    isWindows: bool,                        // compiled with OS_WINDOWS
    invalidPathChars: set<char>,            // Path.GetInvalidPathChars()
    invalidFileNameChars: set<char>,        // Path.GetInvalidFileNameChars()
    isPathRooted: string -> bool,           // Path.IsPathRooted
    getFullPath: string -> Option<string>,  // Path.GetFullPath; None when it throws
    combine: (string, string) -> string     // Path.Combine of two non-null paths
  )

  /** Path.DirectorySeparatorChar and Path.AltDirectorySeparatorChar on Windows. */
  const DirectorySeparatorChar: char := '\\'
  const AltDirectorySeparatorChar: char := '/'

  /** `s.IndexOfAny(Path.GetInvalidPathChars()) < 0` */
  predicate HasValidPathChars(os: Os, s: string) {
    forall i :: 0 <= i < |s| ==> s[i] !in os.invalidPathChars
  }

  /** The guard both rooting routines use before trusting a path as already rooted. */
  predicate IsValidRooted(os: Os, s: string) {
    s != "" && HasValidPathChars(os, s) && os.isPathRooted(s)
  }

  /** `Path.GetFullPath(p)`, falling back to `p` itself when it throws. */
  function FullPathOrSelf(os: Os, p: string): string {
    os.getFullPath(p).GetOr(p)
  }

  /** What the rooting routines rely on from the path primitives: a full path is valid,
      rooted and already canonical, the empty string is not rooted, and combining two valid paths gives a valid path. */
  ghost predicate CanonicalFullPaths(os: Os) {
    && !os.isPathRooted("")
    && (forall p :: os.getFullPath(p).Some? ==>
          IsValidRooted(os, os.getFullPath(p).value) && os.getFullPath(os.getFullPath(p).value) == os.getFullPath(p))
    && (forall a, b :: HasValidPathChars(os, a) && HasValidPathChars(os, b) ==> HasValidPathChars(os, os.combine(a, b)))
  }

  /** The [Flags] enum HostTypes, as the set of its flags. */
  datatype HostFlag = Build | Deployment | PoolMaintenance | Release
  type HostTypes = set<HostFlag>

  /** `h.HasFlag(f)`: every flag of `f` is set in `h` (so every `h` has the empty flag set). */
  predicate HasFlag(h: HostTypes, f: HostTypes) {
    f <= h
  }
}
