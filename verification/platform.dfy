/**
 * The environment the executable locators consult, as data: how a trial `--version` run of
 * a bare command name ended, and which paths exist, are regular files or are executable.
 */
module Platform {
  import opened Common
  import opened JavaText

  /** How `new ProcessBuilder(cmd, "--version").start()` followed by `waitFor()` ended. */
  datatype ProbeOutcome =
    | ProbeFailed           // the spawn or the wait threw
    | ProbeExited(code: int)

  /** The answers `File.exists`, `File.isFile` and `File.canExecute` give, per path string. */
  datatype FileSystem = FileSystem(existing: set<string>, regular: set<string>, executable: set<string>)
  {
    predicate Exists(p: string) { p in existing }
    predicate IsFile(p: string) { p in regular }
    predicate CanExecute(p: string) { p in executable }
  }

  /** What a locator may look at: `os.name`, the working directory, a probe per command, the files. */
  datatype Host = Host(osName: string, workingDir: string, probe: string -> ProbeOutcome, fs: FileSystem)

  /** `System.getProperty("os.name").toLowerCase().contains("win")`. */
  predicate IsWindows(osName: string) {
    Contains(ToLower(osName), "win")
  }

  /**
   * `new File(p).getAbsolutePath()`. On Windows the candidate paths (drive-letter paths)
   * are already absolute; elsewhere they are relative names resolved against the working
   * directory, which on a Unix file system is joined with a single `/`.
   */
  function AbsolutePath(h: Host, p: string): string {
    if IsWindows(h.osName) then p
    else if h.workingDir == "/" then "/" + p
    else h.workingDir + "/" + p
  }

  /** The position of the first element of `cs` that `ok` accepts, or `|cs|` if there is none. */
  function FirstAcceptedIndex(cs: seq<string>, ok: string -> bool): (k: nat)
    ensures k <= |cs|
    ensures forall j :: 0 <= j < k ==> !ok(cs[j])
    ensures k < |cs| ==> ok(cs[k])
  {
    if cs == [] || ok(cs[0]) then 0 else 1 + FirstAcceptedIndex(cs[1..], ok)
  }

  /** The first element of `cs` that `ok` accepts, scanning in order. */
  function FirstAccepted(cs: seq<string>, ok: string -> bool): (r: Option<string>)
    ensures r.None? <==> forall k :: 0 <= k < |cs| ==> !ok(cs[k])
    ensures r.Some? ==> r.value == cs[FirstAcceptedIndex(cs, ok)] && ok(r.value)
  {
    var k := FirstAcceptedIndex(cs, ok);
    if k < |cs| then Some(cs[k]) else None
  }
}
