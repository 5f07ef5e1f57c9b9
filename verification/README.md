# AI System Analyzer — a Dafny model of its parsers, locators and analyzer store

The AI System Analyzer is a desktop tool that inventories a Windows or Linux machine and answers
questions about it. This project models the parts of it that are pure logic over text and small
state, and proves what they compute:

- **Network scanner** (`NetworkScanner.scanToJson`, `findNmapExecutable`). It locates `nmap`, turns
  the lines nmap prints into an ordered list of host records, and derives the scan status from the
  exit code. The parser is modelled twice. The first version is the loop the code runs: a fold
  over classified lines with a "current host". The second is a reference reading, one host per
  `Nmap scan report for` block. A lemma proves the two agree.
- **Two ClamAV runners.** The analyzer application's `AntivirusScanner` keeps the lines matching
  `^.*:.* FOUND$` and records the text before the first `:`. The root application's
  `AntivirusScanner` keeps every line mentioning `FOUND` verbatim. The two locators also differ:
  the analyzer wants exit code 0 and falls back to install candidates only on Windows, while the
  root version accepts any run that starts and tries the candidates everywhere.
- **Software inventory** (`SoftwareInfo`). This covers:
  - the quote-toggling CSV tokenizer `parseCsvLine`, proved equal to a recursive reference
    definition;
  - the `driverquery` row filter;
  - the registry value-line extractor;
  - the rule that a program is kept only when a `DisplayName` was read.
- **Disk inventory** (`DISKInfo.getData`): one record per disk store, typed `SSD` exactly when the
  lower-cased model contains `ssd`.
- **Analyzer** (`AIAnalyzer`): the four keyed stores, the two `LastScan` updates, the four-key
  snapshot, the keyword router `answerQuestion` and the advice builder `getAdvice`.

External programs (`nmap`, `clamscan`, `reg`, `driverquery`) and the file system are parameters:

- a probe oracle says whether `<cmd> --version` started and with which exit code;
- file-system predicates say whether a path exists, is a regular file or is executable;
- a run is the sequence of lines read before it ended, plus how it ended (completed, an I/O error,
  or an interruption, each with its message);
- a shell oracle maps an argument vector to its output lines and an "aborted" flag.

Java `null` is `Option.None`. `String.trim` strips characters `<= U+0020`. `toLowerCase` is the
ASCII mapping. `split(regex)` drops trailing empty pieces, as Java does.

Behaviour the model follows as the code has it, where the comments and documentation suggest otherwise:

- The nmap locator and the analyzer's ClamAV locator need exit code 0. The root ClamAV locator
  accepts any exit code.
- `infected` is set only on a completed run. After an I/O error or an interruption it stays
  false even when infection lines were already listed.
- The CSV tokenizer only toggles on `"`. A doubled quote is not an escape: it toggles twice and
  vanishes.
- `Host is up` sets the status only when a host record is open. A port line seen before any
  report line dereferences a null host, and the scan ends `failed`.
- A port literally named `host` overwrites the host name in its record. The name is guaranteed
  only when no port entry uses that key.
- `getAdvice` reads `RAM` and `Disk` as maps. `collectBaseData` stores lists there, so the hardware
  advice ends in a `ClassCastException` on real data. This is modelled as an explicit fault
  outcome.
- The disk records have no `freeSpace` key, so the low-disk line can only appear for a map that
  was stored some other way.

## Model

| member | source | states |
|---|---|---|
| NetworkScanner.FindNmap | Ai_System_Analyzer/src/main/java/network/NetworkScanner.java:109-137 | `"nmap"` when `nmap --version` exits 0; otherwise the first candidate, in listed order, that exists and is executable; otherwise null |
| NetworkScanner.FindNmapOutcomes | Ai_System_Analyzer/src/main/java/network/NetworkScanner.java:109-137 | any answer is `"nmap"` or an existing executable candidate; null exactly when the probe does not exit 0 and no candidate qualifies |
| NetworkScanner.ClassifyAll | Ai_System_Analyzer/src/main/java/network/NetworkScanner.java:59-61 | every output line is classified on its own, in order, after trimming |
| NetworkScanner.Update | Ai_System_Analyzer/src/main/java/network/NetworkScanner.java:68-79 | `Host is up` adds or overwrites only `status` with `up`; a port entry adds or overwrites only its port key with its description; every other entry, and every other line, leaves the record as it was |
| NetworkScanner.NextReport | Ai_System_Analyzer/src/main/java/network/NetworkScanner.java:62 | the next report line at or after `i`, with no report line in between |
| NetworkScanner.FoldNullHost | Ai_System_Analyzer/src/main/java/network/NetworkScanner.java:78-97 | once the null host is dereferenced, nothing later recovers the parse |
| NetworkScanner.FoldBody | Ai_System_Analyzer/src/main/java/network/NetworkScanner.java:59-81 | the loop over a block's body lines updates the current host exactly as the block reading does |
| NetworkScanner.FoldPreamble | Ai_System_Analyzer/src/main/java/network/NetworkScanner.java:57-79 | before the first report line, a port entry fails the parse and every other line is skipped |
| NetworkScanner.FoldFirstBlock | Ai_System_Analyzer/src/main/java/network/NetworkScanner.java:62-67 | a report line flushes the open host and starts a record holding only `host`, which its body lines then update |
| NetworkScanner.FoldBlocks | Ai_System_Analyzer/src/main/java/network/NetworkScanner.java:59-85 | from a report line on, the loop plus the final flush produce exactly one record per block, in order |
| NetworkScanner.ParseIsByBlocks | Ai_System_Analyzer/src/main/java/network/NetworkScanner.java:57-85 | the parsing loop equals the reference block reading: failure on an early port entry, otherwise one record per report block |
| NetworkScanner.NoReportsBetween | Ai_System_Analyzer/src/main/java/network/NetworkScanner.java:62 | lines without a report prefix contribute no host name |
| NetworkScanner.ApplyBodyHost | Ai_System_Analyzer/src/main/java/network/NetworkScanner.java:67-78 | body lines keep the `host` key, and keep its value unless a port is literally named `host` |
| NetworkScanner.BlockStep | Ai_System_Analyzer/src/main/java/network/NetworkScanner.java:62-67 | the first report block gives the first record and the first reported name |
| NetworkScanner.NoHostKeyEntrySplit | Ai_System_Analyzer/src/main/java/network/NetworkScanner.java:78 | the no-`host`-port condition holds of every slice |
| NetworkScanner.BlocksShape | Ai_System_Analyzer/src/main/java/network/NetworkScanner.java:62-85 | one record per report line; each has a `host` key; absent a `host` port it equals the reported name, in order |
| NetworkScanner.HostsFollowReports | Ai_System_Analyzer/src/main/java/network/NetworkScanner.java:62-85 | a successful parse yields exactly one host record per report line, in order, named after it, including the final flushed one |
| NetworkScanner.NullHostIffEarlyPortEntry | Ai_System_Analyzer/src/main/java/network/NetworkScanner.java:57-97 | the parse fails exactly when a qualifying port line comes before every report line |
| NetworkScanner.ClassifyReport | Ai_System_Analyzer/src/main/java/network/NetworkScanner.java:62-67 | `Nmap scan report for <h>` is a report line for host `h` |
| NetworkScanner.ReportHostOf | Ai_System_Analyzer/src/main/java/network/NetworkScanner.java:67 | removing every prefix occurrence and trimming recovers the host name |
| NetworkScanner.PortWordIsNoPrefix | Ai_System_Analyzer/src/main/java/network/NetworkScanner.java:62-71 | a line starting with a `/tcp` port word is neither a report line nor a `Host is up` line |
| NetworkScanner.PortLineIsTrimmed | Ai_System_Analyzer/src/main/java/network/NetworkScanner.java:60 | a port line starting and ending with a word is unchanged by trimming, whatever separates its columns |
| NetworkScanner.ClassifyPort | Ai_System_Analyzer/src/main/java/network/NetworkScanner.java:71-79 | `port state service extra…`, with any runs of `\s` characters between the columns, records `port ↦ "state (service)"`, ignoring extra tokens |
| NetworkScanner.HostUpWithoutHostIgnored | Ai_System_Analyzer/src/main/java/network/NetworkScanner.java:68-70 | `Host is up` with no open host changes nothing |
| NetworkScanner.ExamplePortLine | Ai_System_Analyzer/src/main/java/network/NetworkScanner.java:71-79 | the commented example `80/tcp open  http`, two blanks before the service, gives `80/tcp ↦ "open (http)"` |
| NetworkScanner.ParseReportThenPort | Ai_System_Analyzer/src/main/java/network/NetworkScanner.java:62-85 | a report line then a port line gives one host with that one port |
| NetworkScanner.SingleHost | Ai_System_Analyzer/src/main/java/network/NetworkScanner.java:57-85 | the two raw lines of a one-host, one-port scan, columns separated by any blank runs, parse to that single record |
| NetworkScanner.Classify | Ai_System_Analyzer/src/main/java/network/NetworkScanner.java:60-80 | a raw line is trimmed, then classified; the meaning of each outcome is given by ClassifyReport, ClassifyPort and PortWordIsNoPrefix |
| NetworkScanner.ClassifyTrimmed | Ai_System_Analyzer/src/main/java/network/NetworkScanner.java:62-80 | the priority chain: report prefix, then `Host is up`, then contains `/tcp` with three or more tokens, else ignored |
| NetworkScanner.Step | Ai_System_Analyzer/src/main/java/network/NetworkScanner.java:62-80 | one loop iteration: a report flushes and opens a record; another line updates the open record; a port entry with none open is the null dereference; proved against the block reading by FoldBlocks |
| NetworkScanner.Fold | Ai_System_Analyzer/src/main/java/network/NetworkScanner.java:59-81 | the read loop over all classified lines, from no hosts and no open record; characterised by ParseIsByBlocks |
| NetworkScanner.ParseLines | Ai_System_Analyzer/src/main/java/network/NetworkScanner.java:57-85 | the loop plus the final flush, or failure on the null dereference; equal to HostsByBlocks by ParseIsByBlocks |
| NetworkScanner.ParseHosts | Ai_System_Analyzer/src/main/java/network/NetworkScanner.java:57-85 | classify every raw line, then parse; its shape is given by HostsFollowReports and NullHostIffEarlyPortEntry |
| NetworkScanner.HasTarget | Ai_System_Analyzer/src/main/java/network/NetworkScanner.java:35 | the target is non-null and not blank |
| NetworkScanner.ScanToJson | Ai_System_Analyzer/src/main/java/network/NetworkScanner.java:24-101 | a missing executable fails first, then a null or blank target; a null-host dereference or a run error fails; otherwise it records executable, target, hosts and exit code |
| NetworkScanner.StatusFromExitCode | Ai_System_Analyzer/src/main/java/network/NetworkScanner.java:87-97 | status is `completed` iff the scan finished with exit 0, `completed_with_errors` iff it finished otherwise, and `failed` iff it failed |
| NetworkScanner.NotFoundBeatsBlankTarget | Ai_System_Analyzer/src/main/java/network/NetworkScanner.java:28-39 | with no executable, a null or blank target still reports the not-found error |
| ClamScan.NotFound | Ai_System_Analyzer/src/main/java/antivirus/AntivirusScanner.java:75-79 | the not-found result: scanned path kept, null executable, the fixed message, not infected, no files |
| ClamScan.ReadOutput | Ai_System_Analyzer/src/main/java/antivirus/AntivirusScanner.java:94-103 | the reading loop lists the selected lines in order and builds the raw output as each line plus a newline |
| AnalyzerAntivirus.ProbeCommand | Ai_System_Analyzer/src/main/java/antivirus/AntivirusScanner.java:35-38 | the probe is `clamscan.exe` exactly on Windows, `clamscan` elsewhere |
| AnalyzerAntivirus.FindClamScan | Ai_System_Analyzer/src/main/java/antivirus/AntivirusScanner.java:34-63 | the probe command when its `--version` run exits 0; else, on Windows only, the first existing regular candidate; else null; characterised by FindClamScanOutcomes |
| AnalyzerAntivirus.FindClamScanOutcomes | Ai_System_Analyzer/src/main/java/antivirus/AntivirusScanner.java:34-63 | a non-probe answer is an existing regular candidate found on Windows; off Windows only an exit-0 probe succeeds; null exactly when neither route works |
| AnalyzerAntivirus.NonZeroProbeOffWindows | Ai_System_Analyzer/src/main/java/antivirus/AntivirusScanner.java:43-49 | off Windows a probe with a non-zero exit code finds nothing |
| AnalyzerAntivirus.IsInfectionLine | Ai_System_Analyzer/src/main/java/antivirus/AntivirusScanner.java:99 | `^.*:.* FOUND$`: the line ends in ` FOUND` and the text before holds a `:` and no line terminator; both directions by InfectionLineOf and InfectionLineParts |
| AnalyzerAntivirus.AsWrittenPath | Ai_System_Analyzer/src/main/java/antivirus/AntivirusScanner.java:100 | the trimmed text before the first `:`; see AsWrittenCutsAtFirstColon |
| AnalyzerAntivirus.InfectedPath | Ai_System_Analyzer/src/main/java/antivirus/AntivirusScanner.java:98-100 | the corrected cut: the trimmed text before the last `:` ahead of ` FOUND`; see InfectedPathOf |
| AnalyzerAntivirus.InfectionLineOf | Ai_System_Analyzer/src/main/java/antivirus/AntivirusScanner.java:99 | `a:b FOUND` with `a`, `b` on one line matches the infection pattern |
| AnalyzerAntivirus.FirstColonInBody | Ai_System_Analyzer/src/main/java/antivirus/AntivirusScanner.java:99-100 | on a matching line the first `:` lies before ` FOUND` |
| AnalyzerAntivirus.CutAtColon | Ai_System_Analyzer/src/main/java/antivirus/AntivirusScanner.java:99-100 | a matching line splits at its first colon into path part, signature part and suffix |
| AnalyzerAntivirus.InfectionLineParts | Ai_System_Analyzer/src/main/java/antivirus/AntivirusScanner.java:99-100 | a matching line is `before:after FOUND` cut at its first colon, with both parts on one line |
| AnalyzerAntivirus.AsWrittenCutsAtFirstColon | Ai_System_Analyzer/src/main/java/antivirus/AntivirusScanner.java:98-101 | the recorded path is the trimmed text before the first colon |
| AnalyzerAntivirus.InfectedPathOf | Ai_System_Analyzer/src/main/java/antivirus/AntivirusScanner.java:98-101 | the corrected cut recovers the whole trimmed path whatever colons it contains |
| AnalyzerAntivirus.CutsAgreeWithoutColonInPath | Ai_System_Analyzer/src/main/java/antivirus/AntivirusScanner.java:98-101 | both cuts record the same path when the path has no colon |
| AnalyzerAntivirus.DriveLetterPathAsWritten | Ai_System_Analyzer/src/main/java/antivirus/AntivirusScanner.java:98-101 | a drive-letter line `C:\…: sig FOUND` records only the drive letter |
| AnalyzerAntivirus.DriveLetterPathIntended | Ai_System_Analyzer/src/main/java/antivirus/AntivirusScanner.java:98-101 | the corrected cut records `drive:file` for the same line |
| AnalyzerAntivirus.DriveLetterExample | Ai_System_Analyzer/src/main/java/antivirus/AntivirusScanner.java:98-101 | `C:\file\virus.exe: Win.Trojan FOUND` records `C` as written and the full path when corrected |
| AnalyzerAntivirus.ScanWith | Ai_System_Analyzer/src/main/java/antivirus/AntivirusScanner.java:68-121 | not found gives the fixed result; infection lines are listed in order; `infected` iff completed with a listed line; the raw output is the lines or the error text |
| AnalyzerAntivirus.Scan | Ai_System_Analyzer/src/main/java/antivirus/AntivirusScanner.java:68-121 | `scan` as written: ScanWith cutting at the first colon |
| AnalyzerAntivirus.CorrectedScan | Ai_System_Analyzer/src/main/java/antivirus/AntivirusScanner.java:68-121 | `scan` with the path cut corrected: ScanWith cutting at the last colon; compared with Scan by CorrectionOnlyTouchesPaths |
| AnalyzerAntivirus.ScanReportsInfectionLines | Ai_System_Analyzer/src/main/java/antivirus/AntivirusScanner.java:94-103 | every listed path comes from an infection line of the output |
| AnalyzerAntivirus.InfectedIffListedWhenCompleted | Ai_System_Analyzer/src/main/java/antivirus/AntivirusScanner.java:107-109 | on a completed run, infected iff the list is non-empty |
| AnalyzerAntivirus.BrokenRunListsButDoesNotFlag | Ai_System_Analyzer/src/main/java/antivirus/AntivirusScanner.java:111-115 | an interrupted or failed run keeps the listed files yet is not flagged infected |
| AnalyzerAntivirus.CorrectionOnlyTouchesPaths | Ai_System_Analyzer/src/main/java/antivirus/AntivirusScanner.java:94-109 | the corrected cut changes neither the flag, the raw output nor the number of files |
| Antivirus.FindClamScanOutcomes | src/main/java/antivirus/AntivirusScanner.java:34-56 | any started probe gives `clamscan`, whatever its exit code; otherwise an existing regular candidate's absolute path; null iff neither |
| Antivirus.FindClamScan | src/main/java/antivirus/AntivirusScanner.java:34-56 | `clamscan` when its probe starts and the wait returns; else the first existing regular candidate, as an absolute path; else null; characterised by FindClamScanOutcomes |
| Antivirus.SelectFound | src/main/java/antivirus/AntivirusScanner.java:87-88 | a line is kept whole iff it contains `FOUND`; see RecordsAnyMention and SkipsLinesWithoutF |
| Antivirus.CandidateResolvedOffWindows | src/main/java/antivirus/AntivirusScanner.java:45-53 | off Windows a relative candidate is resolved against the working directory |
| Antivirus.RecordsAnyMention | src/main/java/antivirus/AntivirusScanner.java:87-88 | any line with `FOUND` anywhere is recorded whole |
| Antivirus.SkipsLinesWithoutF | src/main/java/antivirus/AntivirusScanner.java:87 | a line without `F` is never recorded |
| Antivirus.Scan | src/main/java/antivirus/AntivirusScanner.java:61-102 | not found gives the fixed result; lines mentioning `FOUND` are listed verbatim; `infected` iff completed with such a line; errors give the fixed prefix plus the message |
| Antivirus.ScanRecordsWholeLines | src/main/java/antivirus/AntivirusScanner.java:85-90 | every listed entry is an output line that mentions `FOUND` |
| Antivirus.InfectedIffListedWhenCompleted | src/main/java/antivirus/AntivirusScanner.java:92-94 | on a completed run, infected iff the list is non-empty |
| Antivirus.InterruptionLooksLikeIoError | src/main/java/antivirus/AntivirusScanner.java:96-98 | an interruption and an I/O error give the same result |
| CsvLine.ParseCsvLine | software/SoftwareInfo.java:152-165 | the tokenizer loop computes the reference split |
| CsvLine.CsvStep | software/SoftwareInfo.java:156-162 | each character (quote toggle, outside comma, other) keeps the loop's relation to the reference split |
| CsvLine.JoinIsStripQuotes | software/SoftwareInfo.java:152-165 | joining the tokens with `,` gives the line with every `"` removed |
| CsvLine.TokenCount | software/SoftwareInfo.java:156-163 | the token count is one plus the number of commas outside quotes |
| CsvLine.NoQuoteInTokens | software/SoftwareInfo.java:157 | no token contains a quote character |
| CsvLine.SplitConcat | software/SoftwareInfo.java:156-163 | splitting a concatenation glues the two splits at the seam, carrying the quote state |
| CsvLine.TrailingCommaEmptyToken | software/SoftwareInfo.java:158-163 | a trailing outside comma adds one final empty token |
| CsvLine.EmptyLineOneToken | software/SoftwareInfo.java:163 | the empty line gives one empty token |
| CsvLine.QuotedField | software/SoftwareInfo.java:157-161 | inside quotes a field is read up to its closing quote, commas included |
| CsvLine.QuotedRoundTrip | software/SoftwareInfo.java:152-165 | a row of quote-free fields, each quoted and comma-separated, splits back into those fields |
| CsvLine.QuotedCommaExample | software/SoftwareInfo.java:157-161 | `"a,b",c` gives `["a,b", "c"]` |
| CsvLine.DoubledQuoteExample | software/SoftwareInfo.java:157 | `"a""b"` gives `["ab"]`: a doubled quote is not an escape |
| SoftwareInfo.ExtractField | software/SoftwareInfo.java:97-111 | the value is the one from the last line that yields one, and null iff no line does |
| SoftwareInfo.ValueOf | software/SoftwareInfo.java:98-102 | a trimmed line starting with the field name, split on four blanks into three or more pieces, gives its last piece trimmed; see RegistryLineValue, ValueOfSplit, ValueOfFewPieces |
| SoftwareInfo.LastValue | software/SoftwareInfo.java:97-111 | the value of the last line that yields one; see LastSomeIsLatest and ExtractField |
| SoftwareInfo.SplitValueLine | software/SoftwareInfo.java:100 | `field    kind    value` splits on four spaces into those three pieces |
| SoftwareInfo.RegistryLineValue | software/SoftwareInfo.java:98-102 | an indented registry line `field    kind    value` yields `value` |
| SoftwareInfo.ValueOfSplit | software/SoftwareInfo.java:99-102 | a line with the field prefix and three or more pieces yields its last piece, trimmed |
| SoftwareInfo.EmptyValueSkipped | software/SoftwareInfo.java:100-101 | a line with an empty value splits into two pieces and is skipped |
| SoftwareInfo.ValueOfFewPieces | software/SoftwareInfo.java:101 | fewer than three pieces yield nothing |
| SoftwareInfo.QueryProgram | software/SoftwareInfo.java:84-121 | a program is returned iff no query aborted and a DisplayName was read; its fields are the last values read |
| SoftwareInfo.ListingProgramsFromKeys | software/SoftwareInfo.java:65-72 | every program kept comes from a line starting with `HKEY` after trimming, and has a name |
| SoftwareInfo.NoKeyLinesNoPrograms | software/SoftwareInfo.java:66-67 | a listing without `HKEY` lines adds no program |
| SoftwareInfo.ProgramsHaveNames | software/SoftwareInfo.java:68-115 | every inventoried program has a name |
| SoftwareInfo.AbortedListingStops | software/SoftwareInfo.java:60-76 | a listing that throws keeps what it read and stops the remaining roots |
| SoftwareInfo.ListingsOf | software/SoftwareInfo.java:54-61 | one listing per uninstall root, in order |
| SoftwareInfo.ProgramsFrom | software/SoftwareInfo.java:60-76 | the roots' listings in order, stopping after the first listing that throws; see ProgramsOfAllRoots and AbortedListingStops |
| SoftwareInfo.InstalledPrograms | software/SoftwareInfo.java:52-79 | ProgramsFrom over the three uninstall roots, in the listed order |
| SoftwareInfo.ProgramsOfAllRoots | software/SoftwareInfo.java:52-79 | without failures the inventory is the concatenation of the roots' listings |
| SoftwareInfo.DriverOfRow | software/SoftwareInfo.java:133-141 | a row is a driver iff it has at least eight tokens |
| SoftwareInfo.DetectDrivers | software/SoftwareInfo.java:126-147 | the loop skips the header and keeps the qualifying rows in order |
| SoftwareInfo.Drivers | software/SoftwareInfo.java:126-147 | the header line dropped, then one driver per qualifying row, in order; see DriversFromRows |
| SoftwareInfo.DriverRowIffSevenCommas | software/SoftwareInfo.java:133-134 | a row qualifies iff it has at least seven commas outside quotes |
| SoftwareInfo.DriverFromQuotedRow | software/SoftwareInfo.java:136-139 | a quoted row gives displayName = t[0], name = t[1], version = t[4], provider = t[5] |
| SoftwareInfo.DriversFromRows | software/SoftwareInfo.java:131-141 | after the header, drivers come from rows in row order, at most one per row |
| DiskInfo.DiskTypeIffSsdAnyCase | src/main/java/hardware/DISKInfo.java:32-33 | the type is `SSD` or `HDD`, and `SSD` iff the model spells `ssd` in any mix of cases |
| DiskInfo.DiskType | src/main/java/hardware/DISKInfo.java:32-33 | the type is always `SSD` or `HDD` |
| DiskInfo.RecordOf | src/main/java/hardware/DISKInfo.java:20-33 | one disk store's record: name, model, serial, size, reads, writes and transfer time copied, plus the type; see GetData |
| DiskInfo.LowerMatchesAt | src/main/java/hardware/DISKInfo.java:32 | the lower-cased model has `ssd` at `i` iff the model has `s`,`s`,`d` in either case there |
| DiskInfo.LowerCasingKeepsType | src/main/java/hardware/DISKInfo.java:32 | lower-casing the model does not change the type |
| DiskInfo.SamsungIsSsd | src/main/java/hardware/DISKInfo.java:32 | `Samsung SSD 970 EVO` is typed `SSD` |
| DiskInfo.MixedCaseIsSsd | src/main/java/hardware/DISKInfo.java:32 | `fooSsDbar` is typed `SSD` |
| DiskInfo.NoSMeansHdd | src/main/java/hardware/DISKInfo.java:32-33 | a model without `s` is typed `HDD` |
| DiskInfo.GetData | src/main/java/hardware/DISKInfo.java:16-38 | one record per disk store in order, readings copied unchanged, typed by the model |
| AIAnalyzer.NewAnalyzer | src/main/java/ai/AIAnalyzer.java:48-51 | a new analyzer has four empty stores |
| AIAnalyzer.CollectBaseData | src/main/java/ai/AIAnalyzer.java:55-63 | sets CPU, GPU, RAM, Disk and Software to the readings, keeps every other entry, and leaves the scan stores alone |
| AIAnalyzer.CollectLatestWins | src/main/java/ai/AIAnalyzer.java:55-63 | collecting twice leaves only the second readings |
| AIAnalyzer.WithLastScan | src/main/java/ai/AIAnalyzer.java:68-75 | replaces only the `LastScan` entry |
| AIAnalyzer.RunAntivirusScan | src/main/java/ai/AIAnalyzer.java:66-70 | stores the scan JSON under `LastScan` of the antivirus store, returns it, and leaves the others alone |
| AIAnalyzer.RunNetworkScan | src/main/java/ai/AIAnalyzer.java:73-77 | stores the scan JSON under `LastScan` of the network store, returns it, and leaves the others alone |
| AIAnalyzer.ScansLatestWins | src/main/java/ai/AIAnalyzer.java:66-77 | a later scan replaces an earlier one, and the two kinds of scan commute |
| AIAnalyzer.AllData | src/main/java/ai/AIAnalyzer.java:80-87 | the snapshot has exactly the keys Hardware, Software, Antivirus, Network |
| AIAnalyzer.AllDataFaithful | src/main/java/ai/AIAnalyzer.java:80-87 | the snapshot determines the four stores and shows each scan update |
| AIAnalyzer.MentionsSpelledOut | src/main/java/ai/AIAnalyzer.java:92-98 | each topic's keyword group, as substrings |
| AIAnalyzer.FirstMentioned | src/main/java/ai/AIAnalyzer.java:92-98 | the topic chosen is one of those offered and is mentioned |
| AIAnalyzer.RouteIsFirstMentioned | src/main/java/ai/AIAnalyzer.java:91-99 | the router picks the first topic, in the fixed order, whose keywords the lower-cased question contains |
| AIAnalyzer.RouteFirstMatchWins | src/main/java/ai/AIAnalyzer.java:91-99 | the chosen topic is mentioned and no earlier-ranked one is; no topic iff none is mentioned |
| AIAnalyzer.AntivirusKeywordRedundant | src/main/java/ai/AIAnalyzer.java:97 | a question containing `antivirus` already contains `virus` |
| AIAnalyzer.CpuBeatsNetwork | src/main/java/ai/AIAnalyzer.java:92-98 | `cpu and network` routes to CPU |
| AIAnalyzer.ProgramMeansRam | src/main/java/ai/AIAnalyzer.java:94-96 | a question with `program` but no `cpu`/`gpu` routes to RAM, even if it says `software` |
| AIAnalyzer.ZipMeansNetwork | src/main/java/ai/AIAnalyzer.java:98 | `zip` contains `ip`, so it routes to the network when no earlier topic matches |
| AIAnalyzer.RouteIgnoresCase | src/main/java/ai/AIAnalyzer.java:91 | routing ignores the case of the question |
| AIAnalyzer.Route | src/main/java/ai/AIAnalyzer.java:90-98 | the topic of the lower-cased question; characterised by RouteIsFirstMentioned and RouteFirstMatchWins |
| AIAnalyzer.RouteLower | src/main/java/ai/AIAnalyzer.java:92-98 | the if-chain on an already lower-cased question |
| AIAnalyzer.JsonError | src/main/java/ai/AIAnalyzer.java:99 | the reply is exactly `{"error":"`, then the message, then `"}` |
| AIAnalyzer.AnswerQuestion | src/main/java/ai/AIAnalyzer.java:90-100 | the fixed "not recognised" error iff no topic matches; otherwise CPU, GPU, RAM and Disk answer from the hardware store, Software from the software store, and the antivirus and network topics with their store's `LastScan`, null when absent |
| AIAnalyzer.ScanAnsweredBack | src/main/java/ai/AIAnalyzer.java:66-98 | after a scan, a question routed to it answers with that scan's JSON |
| AIAnalyzer.UnscannedAnswersNull | src/main/java/ai/AIAnalyzer.java:97-98 | before any scan, scan questions answer `null` |
| AIAnalyzer.CollectedAnsweredBack | src/main/java/ai/AIAnalyzer.java:55-96 | after collection, each hardware or software question answers with its reading |
| AIAnalyzer.BelowThresholdMeaning | src/main/java/ai/AIAnalyzer.java:111-125 | the threshold test faults iff the value is not a map or the key holds no long, and fires iff the long is below the threshold |
| AIAnalyzer.BelowThreshold | src/main/java/ai/AIAnalyzer.java:111-125 | the cast-and-compare of one hardware reading: no map or no key gives no line, a non-map or non-long faults; characterised by BelowThresholdMeaning |
| AIAnalyzer.HardwareSection | src/main/java/ai/AIAnalyzer.java:108-126 | the hardware header, then the RAM line, then the disk line, each when its reading is low; see RamLineIffLowTotal and DiskLineIffLowFreeSpace |
| AIAnalyzer.SecuritySection | src/main/java/ai/AIAnalyzer.java:129-136 | the security header and one line saying whether a scan is stored; see SecurityLineFollowsScans |
| AIAnalyzer.AdviceLines | src/main/java/ai/AIAnalyzer.java:103-142 | the keyword-gated sections in fixed order; see SectionsInOrder and HeadersIffAsked |
| AIAnalyzer.GetAdvice | src/main/java/ai/AIAnalyzer.java:103-149 | faults exactly when the advice lines fault |
| AIAnalyzer.AdviceFaults | src/main/java/ai/AIAnalyzer.java:108-126 | advice faults iff hardware was asked and RAM or Disk is malformed |
| AIAnalyzer.NoAdviceIffNoSection | src/main/java/ai/AIAnalyzer.java:144-146 | the fixed "no advice" error iff no section's keywords occur |
| AIAnalyzer.SectionsInOrder | src/main/java/ai/AIAnalyzer.java:108-142 | hardware, then security, then network, each present when asked |
| AIAnalyzer.HeadersIffAsked | src/main/java/ai/AIAnalyzer.java:129-142 | the security and network headers appear iff their keywords occur |
| AIAnalyzer.RamLineIffLowTotal | src/main/java/ai/AIAnalyzer.java:111-117 | the RAM-upgrade line appears iff hardware was asked and RAM `total` is below 16 GiB |
| AIAnalyzer.DiskLineIffLowFreeSpace | src/main/java/ai/AIAnalyzer.java:119-125 | the low-disk line appears iff hardware was asked and Disk `freeSpace` is below 50 GiB |
| AIAnalyzer.SecurityLineFollowsScans | src/main/java/ai/AIAnalyzer.java:129-136 | the security line says whether a scan is stored, and a scan makes it the "scan regularly" line |
| AIAnalyzer.AdviceLinesAreFixedTexts | src/main/java/ai/AIAnalyzer.java:108-142 | every advice line is one of the fixed texts |
| AIAnalyzer.AdviceTextReadsBack | src/main/java/ai/AIAnalyzer.java:103-149 | the advice is its lines each ended by a newline, and splits back into them |
| AIAnalyzer.CollectedListsBreakHardwareAdvice | src/main/java/ai/AIAnalyzer.java:111-113 | with RAM collected as a list, hardware advice faults with a class-cast error |
| Common.CollectEmptyIff | Ai_System_Analyzer/src/main/java/antivirus/AntivirusScanner.java:108-109 | nothing is listed iff no line is selected |
| Common.CollectFromLines | src/main/java/antivirus/AntivirusScanner.java:85-90 | a listing is no longer than its lines, and every entry is selected from a line |
| Common.LastSomeIsLatest | software/SoftwareInfo.java:104-107 | a later value overwrites earlier ones; nothing iff no line yields a value |
| Platform.FirstAccepted | Ai_System_Analyzer/src/main/java/network/NetworkScanner.java:128-133 | the first candidate, in listed order, that the environment accepts; null iff none is accepted |
| Platform.AbsolutePath | src/main/java/antivirus/AntivirusScanner.java:52 | `File.getAbsolutePath`: on Windows the candidates are already absolute; elsewhere they are resolved against the working directory; see CandidateResolvedOffWindows |
| Platform.IsWindows | Ai_System_Analyzer/src/main/java/antivirus/AntivirusScanner.java:35 | the lower-cased `os.name` contains `win` |
| JavaText.TrimIsInfix | Ai_System_Analyzer/src/main/java/network/NetworkScanner.java:60 | trimming strips exactly the leading and trailing characters up to U+0020 |
| JavaText.TrimIdempotent | Ai_System_Analyzer/src/main/java/network/NetworkScanner.java:60-67 | trimming twice is trimming once |
| JavaText.Trim | Ai_System_Analyzer/src/main/java/network/NetworkScanner.java:60 | `String.trim`: its result is trimmed (TrimIsInfix gives what it keeps) |
| JavaText.Tokens | Ai_System_Analyzer/src/main/java/network/NetworkScanner.java:73 | `split("\\s+")` on a trimmed line: the maximal non-space runs in order, none empty; see TokensCons and ThreeWordTokens |
| JavaText.SplitLiteral | software/SoftwareInfo.java:100 | `split` on a literal separator, with trailing empty pieces dropped; see PiecesAfterPiece |
| JavaText.RemoveAll | Ai_System_Analyzer/src/main/java/network/NetworkScanner.java:67 | `replace(p, "")`: never longer than its input; see RemoveAllAbsent |
| JavaText.ToLower | src/main/java/ai/AIAnalyzer.java:91 | `toLowerCase` on ASCII: same length, each character lower-cased |
| JavaText.IsBlank | Ai_System_Analyzer/src/main/java/network/NetworkScanner.java:35 | `String.isBlank`: every character is Java whitespace |
| JavaText.ToLowerOfLower | src/main/java/ai/AIAnalyzer.java:91 | lower-casing a string without upper-case ASCII letters changes nothing |
| JavaText.RemoveAllAbsent | Ai_System_Analyzer/src/main/java/network/NetworkScanner.java:67 | removing an absent pattern changes nothing |
| JavaText.TokensCons | Ai_System_Analyzer/src/main/java/network/NetworkScanner.java:73 | splitting on whitespace peels off the leading word |
| JavaText.PiecesAfterPiece | software/SoftwareInfo.java:100 | a literal split peels off the piece before the first separator |
| JavaText.LineTextRoundTrip | Ai_System_Analyzer/src/main/java/antivirus/AntivirusScanner.java:95 | the raw output, each line plus a newline, splits back into the lines |

## Left out

- JSON serialisation (Gson `toJson`): results are datatypes, and the analyzer stores a scan's JSON
  text as an opaque string. Rendering a stored value for `answerQuestion` is the `Serialized`
  reply, not the JSON text.
- Process spawning, stream reading, `waitFor` and `File.exists`/`isFile`/`canExecute` are
  parameters: a probe oracle, a run's lines and ending, a shell oracle, and file-system sets.
- The argument vectors of `nmap` (`-sS -T4 -p 1-1024`) and `clamscan` are not modelled: the run
  is a parameter.
- `detectOS` and the hardware readers (CPU, GPU, RAM, network, processes) are not part of this
  model. Their readings are parameters of `collectBaseData`.
- The JavaFX application, its chat history and its scan-trigger phrases are not part of this
  model, and neither is the `utils/test.java` harness.
- Threads, `Thread.interrupt()` and stack-trace printing are left out. An interruption is one of
  the ways a run can end.
- `toLowerCase` is ASCII only, with no Unicode case mapping.
- Java `long` is an unbounded integer: the thresholds 16 GiB and 50 GiB sit far inside 64 bits.
- NetworkScanner.ErrorText: the message of the null-host `NullPointerException` depends on the JVM
  (absent, or a generated sentence), so the model gives none. Any other exception text is a
  parameter of the run.
- Null string arguments (a null scan path, target-free question or request) are not modelled:
  `scan`, `answerQuestion` and `getAdvice` take strings, and their callers pass non-null values.
  The nmap target is the exception: it is an `Option`, since the source tests it for null.
- AnalyzerAntivirus.IsInfectionLine: `Pattern.matches` with `.` excluding line terminators is
  modelled directly over the five Java line terminators, not by a regular-expression engine.

## Findings

| source | as written | input that shows it | evidently intended | confidence | as-written member | corrected member |
|---|---|---|---|---|---|---|
| Ai_System_Analyzer/src/main/java/antivirus/AntivirusScanner.java:99-100 | the infected path is the text before the first `:` of the line | `C:\file\virus.exe: Win.Trojan FOUND` records `C` | the path up to the last `:` before ` FOUND`, here `C:\file\virus.exe` | not executed | AnalyzerAntivirus.DriveLetterPathAsWritten | AnalyzerAntivirus.DriveLetterPathIntended |
