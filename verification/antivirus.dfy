/**
 * The ClamAV runner of the root application (`src/main`): it accepts `clamscan` as soon
 * as a `--version` run of it starts, tries the install candidates on every system, and
 * records every output line that mentions `FOUND`, verbatim.
 */
module Antivirus {
  import opened Common
  import opened JavaText
  import opened Platform
  import opened ClamScan

  const FoundMarker := "FOUND"

  // ---------------------------------------------------------------- locator

  /**
   * `findClamScanExecutable`: `"clamscan"` when its `--version` run starts and the wait
   * returns, whatever the exit code; otherwise the absolute path of the first candidate that
   * exists and is a regular file; otherwise nothing.
   */
  function FindClamScan(h: Host): Option<string> {
    if h.probe("clamscan").ProbeExited? then Some("clamscan")
    else
      match FirstAccepted(ClamCandidates, c => h.fs.Exists(c) && h.fs.IsFile(c))
      case Some(c) => Some(AbsolutePath(h, c))
      case None => None
  }

  /** What the locator can answer, against the environment it consults. */
  lemma {:induction false} FindClamScanOutcomes(h: Host)
    ensures (exists code :: h.probe("clamscan") == ProbeExited(code)) ==> FindClamScan(h) == Some("clamscan")
    ensures h.probe("clamscan") == ProbeFailed && FindClamScan(h).Some? ==>
              exists k :: 0 <= k < |ClamCandidates| &&
                h.fs.Exists(ClamCandidates[k]) && h.fs.IsFile(ClamCandidates[k]) &&
                FindClamScan(h).value == AbsolutePath(h, ClamCandidates[k])
    ensures FindClamScan(h).None? <==>
              h.probe("clamscan") == ProbeFailed &&
              forall k :: 0 <= k < |ClamCandidates| ==> !(h.fs.Exists(ClamCandidates[k]) && h.fs.IsFile(ClamCandidates[k]))
  {
    if h.probe("clamscan") == ProbeFailed && FindClamScan(h).Some? {
      var k := FirstAcceptedIndex(ClamCandidates, c => h.fs.Exists(c) && h.fs.IsFile(c));
      assert FindClamScan(h).value == AbsolutePath(h, ClamCandidates[k]);
    }
  }

  /** Off Windows a candidate found on disk is reported resolved against the working directory. */
  lemma {:induction false} CandidateResolvedOffWindows(h: Host)
    requires !IsWindows(h.osName) && h.probe("clamscan") == ProbeFailed && h.workingDir != "/"
    requires h.fs.Exists(ClamCandidates[0]) && h.fs.IsFile(ClamCandidates[0])
    ensures FindClamScan(h) == Some(h.workingDir + "/" + ClamCandidates[0])
  {
  }

  // ---------------------------------------------------------------- lines

  /** `line.contains("FOUND")`: the whole line is kept. */
  function SelectFound(line: string): Option<string> {
    if Contains(line, FoundMarker) then Some(line) else None
  }

  /** Any line with `FOUND` somewhere in it is recorded, not only ClamAV's verdict lines. */
  lemma {:induction false} RecordsAnyMention(a: string, b: string)
    ensures SelectFound(a + (FoundMarker + b)) == Some(a + (FoundMarker + b))
  {
    ContainsOfPrefix(FoundMarker + b, FoundMarker);
    ContainsInSuffix(a, FoundMarker + b, FoundMarker);
  }

  /** A line without `F` cannot mention `FOUND`, so it is never recorded. */
  lemma {:induction false} SkipsLinesWithoutF(line: string)
    requires 'F' !in line
    ensures SelectFound(line).None?
  {
    NotContainsFirstChar(line, FoundMarker);
  }

  // ---------------------------------------------------------------- scan

  /**
   * `scan(path)`, given what the environment answers and how the `clamscan` run went. Both
   * an I/O error and an interruption end in the same message; the lines recorded before
   * either stay listed.
   */
  function Scan(h: Host, path: string, run: ClamRun): (r: ScanResult)
    ensures r.scannedPath == path && r.executable == FindClamScan(h)
    ensures FindClamScan(h).None? ==> r == NotFound(path)
    ensures FindClamScan(h).Some? ==> r.infectedFiles == Collect(run.lines, SelectFound)
    ensures r.infected <==>
              FindClamScan(h).Some? && run.Completed? &&
              exists k :: 0 <= k < |run.lines| && Contains(run.lines[k], FoundMarker)
    ensures FindClamScan(h).Some? && run.Completed? ==> r.rawOutput == LineText(run.lines)
    ensures FindClamScan(h).Some? && run.Broke? ==> r.rawOutput == IoErrorPrefix + ShowNullable(run.message)
  {
    var exec := FindClamScan(h);
    if exec.None? then NotFound(path)
    else
      var files := Collect(run.lines, SelectFound);
      CollectEmptyIff(run.lines, SelectFound);
      match run
      case Completed(lines) => ScanResult(path, files != [], files, LineText(lines), exec)
      case Broke(_, _, m) => ScanResult(path, false, files, IoErrorPrefix + ShowNullable(m), exec)
  }

  /** Every recorded entry is an output line mentioning `FOUND`, kept as it was read. */
  lemma {:induction false} ScanRecordsWholeLines(h: Host, path: string, run: ClamRun)
    ensures |Scan(h, path, run).infectedFiles| <= |run.lines|
    ensures forall f :: f in Scan(h, path, run).infectedFiles ==>
              Contains(f, FoundMarker) && f in run.lines
  {
    CollectFromLines(run.lines, SelectFound);
    forall f | f in Scan(h, path, run).infectedFiles
      ensures Contains(f, FoundMarker) && f in run.lines
    {
      var k :| 0 <= k < |run.lines| && SelectFound(run.lines[k]) == Some(f);
    }
  }

  /** On a completed run the flag says exactly whether any line was recorded. */
  lemma {:induction false} InfectedIffListedWhenCompleted(h: Host, path: string, lines: seq<string>)
    requires FindClamScan(h).Some?
    ensures Scan(h, path, Completed(lines)).infected <==> Scan(h, path, Completed(lines)).infectedFiles != []
  {
    CollectEmptyIff(lines, SelectFound);
  }

  /** An interruption reads exactly like an I/O error. */
  lemma {:induction false} InterruptionLooksLikeIoError(h: Host, path: string, lines: seq<string>, m: Option<string>)
    ensures Scan(h, path, Broke(lines, Interrupted, m)) == Scan(h, path, Broke(lines, IoError, m))
  {
  }
}
