/**
 * The ClamAV runner of the analyzer application (`Ai_System_Analyzer`): it looks for
 * `clamscan` with an OS-specific probe, runs `clamscan -r <path>`, and reports the file
 * path of every output line shaped like `<path>: <signature> FOUND`.
 */
module AnalyzerAntivirus {
  import opened Common
  import opened JavaText
  import opened Platform
  import opened ClamScan

  const InterruptedPrefix := "Scansione interrotta: "
  const FoundSuffix := " FOUND"

  // ---------------------------------------------------------------- locator

  /** The bare command the probe runs: `clamscan.exe` on Windows, `clamscan` elsewhere. */
  function ProbeCommand(osName: string): (cmd: string)
    ensures IsWindows(osName) <==> cmd == "clamscan.exe"
    ensures cmd == "clamscan.exe" || cmd == "clamscan"
  {
    if IsWindows(osName) then "clamscan.exe" else "clamscan"
  }

  /**
   * `findClamScanExecutable`: the probe command when its `--version` run exits 0;
   * otherwise, on Windows only, the absolute path of the first install candidate that
   * exists and is a regular file; otherwise nothing.
   */
  function FindClamScan(h: Host): Option<string> {
    var cmd := ProbeCommand(h.osName);
    if h.probe(cmd) == ProbeExited(0) then Some(cmd)
    else if !IsWindows(h.osName) then None
    else
      match FirstAccepted(ClamCandidates, c => h.fs.Exists(c) && h.fs.IsFile(c))
      case Some(c) => Some(AbsolutePath(h, c))
      case None => None
  }

  /** What the locator can answer, against the environment it consults. */
  lemma {:induction false} FindClamScanOutcomes(h: Host)
    ensures FindClamScan(h).Some? && FindClamScan(h).value != ProbeCommand(h.osName) ==>
              IsWindows(h.osName) && FindClamScan(h).value in ClamCandidates &&
              h.fs.Exists(FindClamScan(h).value) && h.fs.IsFile(FindClamScan(h).value)
    ensures !IsWindows(h.osName) ==>
              (FindClamScan(h).Some? <==> h.probe("clamscan") == ProbeExited(0))
    ensures FindClamScan(h).None? <==>
              h.probe(ProbeCommand(h.osName)) != ProbeExited(0) &&
              (!IsWindows(h.osName) ||
               forall k :: 0 <= k < |ClamCandidates| ==> !(h.fs.Exists(ClamCandidates[k]) && h.fs.IsFile(ClamCandidates[k])))
  {
  }

  /** A probe that starts but exits non-zero counts as not found, unlike a clean exit. */
  lemma {:induction false} NonZeroProbeOffWindows(h: Host, code: int)
    requires !IsWindows(h.osName) && h.probe("clamscan") == ProbeExited(code) && code != 0
    ensures FindClamScan(h).None?
  {
  }

  // ---------------------------------------------------------------- infection lines

  /** The characters Java's regex `.` does not match (no `DOTALL`). */
  predicate IsLineTerminator(c: char) {
    c == '\n' || c == '\r' || c == '\U{85}' || c == '\U{2028}' || c == '\U{2029}'
  }

  predicate OnOneLine(s: string) {
    forall k :: 0 <= k < |s| ==> !IsLineTerminator(s[k])
  }

  /**
   * `line.matches("^.*:.* FOUND$")`: the whole line is some text, a colon, some text and
   * `" FOUND"`, with no line terminator before the suffix.
   */
  predicate IsInfectionLine(line: string) {
    EndsWith(line, FoundSuffix) &&
    var body := line[..|line| - |FoundSuffix|];
    ':' in body && OnOneLine(body)
  }

  /** Every `<a>:<b> FOUND` with `a` and `b` on one line is an infection line. */
  lemma {:induction false} InfectionLineOf(a: string, b: string)
    requires OnOneLine(a) && OnOneLine(b)
    ensures IsInfectionLine(a + (":" + (b + FoundSuffix)))
  {
    var line := a + (":" + (b + FoundSuffix));
    assert line[|line| - |FoundSuffix|..] == FoundSuffix;
    var body := line[..|line| - |FoundSuffix|];
    assert body == a + ":" + b;
    assert body[|a|] == ':';
  }

  lemma {:induction false} OnOneLineSlice(s: string, i: int, j: int)
    requires OnOneLine(s) && 0 <= i <= j <= |s|
    ensures OnOneLine(s[i..j])
  {
    assert forall k :: 0 <= k < j - i ==> s[i..j][k] == s[i + k];
  }

  /** The first colon of an infection line lies before the suffix. */
  lemma {:induction false} FirstColonInBody(line: string)
    requires IsInfectionLine(line)
    ensures IndexOfChar(line, ':') < |line| - |FoundSuffix|
  {
    var body := line[..|line| - |FoundSuffix|];
    var j :| 0 <= j < |body| && body[j] == ':';
    assert line[j] == ':';
  }

  lemma {:induction false} CutAround(line: string, k: int, n: int)
    requires 0 <= k < n <= |line| && line[k] == ':'
    ensures line == line[..k] + (":" + (line[k + 1..n] + line[n..]))
  {
    assert line[k + 1..] == line[k + 1..n] + line[n..];
    assert line[k..] == [':'] + line[k + 1..];
    assert line == line[..k] + line[k..];
  }

  lemma {:induction false} CutAtColon(line: string, k: nat)
    requires IsInfectionLine(line) && k == IndexOfChar(line, ':')
    ensures k < |line| - |FoundSuffix|
    ensures line == line[..k] + (":" + (line[k + 1..|line| - |FoundSuffix|] + FoundSuffix))
  {
    FirstColonInBody(line);
    var n := |line| - |FoundSuffix|;
    assert line[n..] == FoundSuffix;
    CutAround(line, k, n);
  }

  lemma {:induction false} PartsOnOneLine(line: string, k: nat)
    requires IsInfectionLine(line) && k < |line| - |FoundSuffix|
    ensures OnOneLine(line[..k]) && OnOneLine(line[k + 1..|line| - |FoundSuffix|])
  {
    var n := |line| - |FoundSuffix|;
    var body := line[..n];
    OnOneLineSlice(body, 0, k);
    OnOneLineSlice(body, k + 1, n);
    assert body[..k] == line[..k];
    assert body[k + 1..n] == line[k + 1..n];
  }

  /** And every infection line has that shape, cut at its first colon. */
  lemma {:induction false} InfectionLineParts(line: string)
    requires IsInfectionLine(line)
    ensures IndexOfChar(line, ':') < |line| - |FoundSuffix|
    ensures line == line[..IndexOfChar(line, ':')]
                    + (":" + (line[IndexOfChar(line, ':') + 1..|line| - |FoundSuffix|] + FoundSuffix))
    ensures OnOneLine(line[..IndexOfChar(line, ':')])
    ensures OnOneLine(line[IndexOfChar(line, ':') + 1..|line| - |FoundSuffix|])
  {
    var k := IndexOfChar(line, ':');
    CutAtColon(line, k);
    PartsOnOneLine(line, k);
  }

  // ---------------------------------------------------------------- the infected path

  /** Where the recorded path ends: the code cuts at the first colon of the line. */
  datatype PathCut = FirstColon | LastColon

  /** The path as the code cuts it: trimmed text before the first colon of the line. */
  function AsWrittenPath(line: string): string {
    Trim(line[..IndexOfChar(line, ':')])
  }

  /** The path ClamAV reports: trimmed text before the last colon ahead of `" FOUND"`. */
  function InfectedPath(line: string): string
    requires IsInfectionLine(line)
  {
    var body := line[..|line| - |FoundSuffix|];
    Trim(body[..LastIndexOfChar(body, ':')])
  }

  function PathBy(cut: PathCut, line: string): string
    requires IsInfectionLine(line)
  {
    match cut
    case FirstColon => AsWrittenPath(line)
    case LastColon => InfectedPath(line)
  }

  /** What the read loop records for one line: the infection line's path, or nothing. */
  function SelectBy(cut: PathCut, line: string): Option<string> {
    if IsInfectionLine(line) then Some(PathBy(cut, line)) else None
  }

  lemma {:induction false} FirstColonAfter(x: string, y: string)
    requires ':' !in x
    ensures IndexOfChar(x + (":" + y), ':') == |x|
    decreases |x|
  {
    if x != [] {
      assert (x + (":" + y))[1..] == x[1..] + (":" + y);
      FirstColonAfter(x[1..], y);
    }
  }

  lemma {:induction false} LastColonBefore(x: string, y: string)
    requires ':' !in y
    ensures LastIndexOfChar(x + (":" + y), ':') == |x|
    decreases |y|
  {
    var t := x + (":" + y);
    if y != [] {
      var y' := y[..|y| - 1];
      assert t[..|t| - 1] == x + (":" + y');
      LastColonBefore(x, y');
    }
  }

  lemma {:induction false} BodyOf(a: string, b: string)
    ensures var line := a + (":" + (b + FoundSuffix));
            line[..|line| - |FoundSuffix|] == a + (":" + b)
  {
  }

  /** The code's cut yields the trimmed text before the first colon. */
  lemma {:induction false} AsWrittenCutsAtFirstColon(a: string, b: string)
    requires OnOneLine(a) && OnOneLine(b) && ':' !in a
    ensures IsInfectionLine(a + (":" + (b + FoundSuffix)))
    ensures AsWrittenPath(a + (":" + (b + FoundSuffix))) == Trim(a)
  {
    InfectionLineOf(a, b);
    var line := a + (":" + (b + FoundSuffix));
    FirstColonAfter(a, b + FoundSuffix);
    assert line[..|a|] == a;
  }

  /** A ClamAV line `<path>:<signature> FOUND` yields its trimmed path, colons in it or not. */
  lemma {:induction false} InfectedPathOf(path: string, signature: string)
    requires OnOneLine(path) && OnOneLine(signature) && ':' !in signature
    ensures IsInfectionLine(path + (":" + (signature + FoundSuffix)))
    ensures InfectedPath(path + (":" + (signature + FoundSuffix))) == Trim(path)
  {
    InfectionLineOf(path, signature);
    BodyOf(path, signature);
    var body := path + (":" + signature);
    LastColonBefore(path, signature);
    assert body[..|path|] == path;
  }

  /** When the path holds no colon, the code's cut and ClamAV's path agree. */
  lemma {:induction false} CutsAgreeWithoutColonInPath(path: string, signature: string)
    requires OnOneLine(path) && OnOneLine(signature) && ':' !in path && ':' !in signature
    ensures IsInfectionLine(path + (":" + (signature + FoundSuffix)))
    ensures AsWrittenPath(path + (":" + (signature + FoundSuffix)))
            == InfectedPath(path + (":" + (signature + FoundSuffix)))
  {
    AsWrittenCutsAtFirstColon(path, signature);
    InfectedPathOf(path, signature);
  }

  lemma {:induction false} OnOneLineConcat(a: string, b: string)
    requires OnOneLine(a) && OnOneLine(b)
    ensures OnOneLine(a + b)
  {
    assert forall k :: |a| <= k < |a + b| ==> (a + b)[k] == b[k - |a|];
  }

  /** The line ClamAV prints for an infected file on a Windows drive: `<drive>:<file>:<signature> FOUND`. */
  function WindowsLine(drive: string, file: string, signature: string): string {
    drive + (":" + (file + (":" + (signature + FoundSuffix))))
  }

  /** Every path on a Windows drive is recorded as the bare drive letter. */
  lemma {:induction false} DriveLetterPathAsWritten(drive: string, file: string, signature: string)
    requires OnOneLine(drive) && OnOneLine(file) && OnOneLine(signature)
    requires ':' !in drive && IsTrimmed(drive)
    ensures IsInfectionLine(WindowsLine(drive, file, signature))
    ensures AsWrittenPath(WindowsLine(drive, file, signature)) == drive
  {
    var rest := file + (":" + signature);
    assert WindowsLine(drive, file, signature) == drive + (":" + (rest + FoundSuffix));
    assert OnOneLine(":");
    OnOneLineConcat(":", signature);
    OnOneLineConcat(file, ":" + signature);
    AsWrittenCutsAtFirstColon(drive, rest);
    TrimOfTrimmed(drive);
  }

  /** Read the way ClamAV writes it, the same line keeps the drive, the colon and the file. */
  lemma {:induction false} DriveLetterPathIntended(drive: string, file: string, signature: string)
    requires OnOneLine(drive) && OnOneLine(file) && OnOneLine(signature) && ':' !in signature
    requires IsTrimmed(drive + (":" + file))
    ensures IsInfectionLine(WindowsLine(drive, file, signature))
    ensures InfectedPath(WindowsLine(drive, file, signature)) == drive + (":" + file)
  {
    var path := drive + (":" + file);
    assert WindowsLine(drive, file, signature) == path + (":" + (signature + FoundSuffix));
    assert OnOneLine(":");
    OnOneLineConcat(":", file);
    OnOneLineConcat(drive, ":" + file);
    InfectedPathOf(path, signature);
    TrimOfTrimmed(path);
  }

  /** The file part of the ClamAV line the source's own comment gives as an example. */
  const ExampleFile := "\\file\\virus.exe"
  const ExampleSignature := " Win.Trojan"

  /** That line, `C:\file\virus.exe: Win.Trojan FOUND`. */
  const DriveLetterLine := WindowsLine("C", ExampleFile, ExampleSignature)

  /** On that line the code records `"C"` where ClamAV names `C:\file\virus.exe`. */
  lemma {:induction false} DriveLetterExample()
    ensures IsInfectionLine(DriveLetterLine)
    ensures AsWrittenPath(DriveLetterLine) == "C"
    ensures InfectedPath(DriveLetterLine) == "C" + (":" + ExampleFile)
  {
    assert OnOneLine("C") && OnOneLine(ExampleFile) && OnOneLine(ExampleSignature);
    assert ':' !in ExampleSignature;
    DriveLetterPathAsWritten("C", ExampleFile, ExampleSignature);
    var path := "C" + (":" + ExampleFile);
    assert path[0] == 'C' && path[|path| - 1] == 'e';
    DriveLetterPathIntended("C", ExampleFile, ExampleSignature);
  }

  // ---------------------------------------------------------------- scan

  /**
   * `scan(path)`, given what the environment answers, how the `clamscan` run went and
   * where infection paths are cut. The infected-file list is filled while reading, so
   * lines read before an I/O error or an interruption stay listed even though `infected`
   * is then left false.
   */
  function ScanWith(h: Host, path: string, run: ClamRun, cut: PathCut): (r: ScanResult)
    ensures r.scannedPath == path && r.executable == FindClamScan(h)
    ensures FindClamScan(h).None? ==> r == NotFound(path)
    ensures FindClamScan(h).Some? ==> r.infectedFiles == Collect(run.lines, line => SelectBy(cut, line))
    ensures r.infected <==>
              FindClamScan(h).Some? && run.Completed? &&
              exists k :: 0 <= k < |run.lines| && IsInfectionLine(run.lines[k])
    ensures FindClamScan(h).Some? && run.Completed? ==> r.rawOutput == LineText(run.lines)
    ensures FindClamScan(h).Some? && run.Broke? ==>
              r.rawOutput == (if run.cause == IoError then IoErrorPrefix else InterruptedPrefix)
                             + ShowNullable(run.message)
  {
    var exec := FindClamScan(h);
    if exec.None? then NotFound(path)
    else
      var files := Collect(run.lines, line => SelectBy(cut, line));
      CollectEmptyIff(run.lines, line => SelectBy(cut, line));
      match run
      case Completed(lines) => ScanResult(path, files != [], files, LineText(lines), exec)
      case Broke(_, IoError, m) => ScanResult(path, false, files, IoErrorPrefix + ShowNullable(m), exec)
      case Broke(_, Interrupted, m) => ScanResult(path, false, files, InterruptedPrefix + ShowNullable(m), exec)
  }

  /** The scan as written: paths cut at the first colon. */
  function Scan(h: Host, path: string, run: ClamRun): ScanResult {
    ScanWith(h, path, run, FirstColon)
  }

  /** The scan with ClamAV's path kept whole. */
  function CorrectedScan(h: Host, path: string, run: ClamRun): ScanResult {
    ScanWith(h, path, run, LastColon)
  }

  /** Every reported file is the path of some infection line of the output. */
  lemma {:induction false} ScanReportsInfectionLines(h: Host, path: string, run: ClamRun, cut: PathCut)
    ensures |ScanWith(h, path, run, cut).infectedFiles| <= |run.lines|
    ensures forall f :: f in ScanWith(h, path, run, cut).infectedFiles ==>
              exists k :: 0 <= k < |run.lines| && IsInfectionLine(run.lines[k]) && PathBy(cut, run.lines[k]) == f
  {
    CollectFromLines(run.lines, line => SelectBy(cut, line));
  }

  /** On a completed run the flag says exactly whether any file was listed. */
  lemma {:induction false} InfectedIffListedWhenCompleted(h: Host, path: string, lines: seq<string>, cut: PathCut)
    requires FindClamScan(h).Some?
    ensures ScanWith(h, path, Completed(lines), cut).infected <==> ScanWith(h, path, Completed(lines), cut).infectedFiles != []
  {
    CollectEmptyIff(lines, line => SelectBy(cut, line));
  }

  /** After a broken run the list can name infected files while the flag stays false. */
  lemma {:induction false} BrokenRunListsButDoesNotFlag(h: Host, path: string, lines: seq<string>, cause: Interruption, m: Option<string>, cut: PathCut)
    requires FindClamScan(h).Some?
    requires exists k :: 0 <= k < |lines| && IsInfectionLine(lines[k])
    ensures !ScanWith(h, path, Broke(lines, cause, m), cut).infected
    ensures ScanWith(h, path, Broke(lines, cause, m), cut).infectedFiles != []
  {
    CollectEmptyIff(lines, line => SelectBy(cut, line));
  }

  /** The corrected scan differs from the written one only in the recorded paths. */
  lemma {:induction false} CorrectionOnlyTouchesPaths(h: Host, path: string, run: ClamRun)
    ensures CorrectedScan(h, path, run).infected == Scan(h, path, run).infected
    ensures CorrectedScan(h, path, run).rawOutput == Scan(h, path, run).rawOutput
    ensures |CorrectedScan(h, path, run).infectedFiles| == |Scan(h, path, run).infectedFiles|
  {
    if FindClamScan(h).Some? {
      CollectSameLength(run.lines, line => SelectBy(FirstColon, line), line => SelectBy(LastColon, line));
    }
  }
}
