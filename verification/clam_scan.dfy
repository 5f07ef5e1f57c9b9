/**
 * What the two ClamAV runners share: the result record, the ways a run can end, the
 * fixed not-found text, the candidate install paths, and the read loop that copies every
 * output line into the raw output while collecting the lines a runner cares about.
 */
module ClamScan {
  import opened Common
  import opened JavaText

  /** `AntivirusScanner.ScanResult`. */
  datatype ScanResult = ScanResult(
    scannedPath: string,
    infected: bool,
    infectedFiles: seq<string>,
    rawOutput: string,
    executable: Option<string>)

  datatype Interruption = IoError | Interrupted

  /** How the `clamscan -r <path>` run ended, with the output lines read before that. */
  datatype ClamRun =
    | Completed(lines: seq<string>)
    | Broke(lines: seq<string>, cause: Interruption, message: Option<string>)

  const NotFoundOutput := "Errore: clamscan non trovato!"
  const IoErrorPrefix := "Errore durante la scansione: "

  /** The ClamAV install paths tried when the PATH probe does not succeed, in order. */
  const ClamCandidates: seq<string> := [
    "C:\\Program Files\\ClamAV\\clamscan.exe",
    "C:\\Program Files (x86)\\ClamAV\\clamscan.exe"
  ]

  /** The result when no executable was found: nothing scanned, nothing infected. */
  function NotFound(path: string): (r: ScanResult)
    ensures r.scannedPath == path && r.executable.None?
    ensures !r.infected && r.infectedFiles == [] && r.rawOutput == NotFoundOutput
  {
    ScanResult(path, false, [], NotFoundOutput, None)
  }

  // ---------------------------------------------------------------- read loop

  /**
   * The source's read loop: append each line and a newline to the output buffer, and
   * record what `select` picks out of it.
   */
  method ReadOutput(lines: seq<string>, select: string -> Option<string>) returns (files: seq<string>, raw: string)
    ensures files == Collect(lines, select)
    ensures raw == LineText(lines)
  {
    files := [];
    raw := "";
    var i := 0;
    while i < |lines|
      invariant 0 <= i <= |lines|
      invariant files == Collect(lines[..i], select)
      invariant raw == LineText(lines[..i])
    {
      var line := lines[i];
      assert lines[..i + 1] == lines[..i] + [line];
      LineTextAppend(lines[..i], line);
      CollectAppend(lines[..i], line, select);
      raw := raw + line + "\n";
      var picked := select(line);
      if picked.Some? {
        files := files + [picked.value];
      }
      i := i + 1;
    }
    assert lines[..i] == lines;
  }
}
