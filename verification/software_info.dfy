/**
 * `SoftwareInfo`: the installed-program list read from the Windows registry with
 * `reg query`, and the driver list read from `driverquery /FO CSV /V`. Each command is
 * answered by a shell oracle with the lines it printed and whether the call threw.
 */
module SoftwareInfo {
  import opened Common
  import opened JavaText
  import opened CsvLine

  /** What one command produced: the lines read, and whether starting, reading or waiting threw. */
  datatype CmdOutput = CmdOutput(lines: seq<string>, aborted: bool)

  /** Who answers a command line (`reg`, `driverquery`): the argument vector in, the output out. */
  type Shell = seq<string> -> CmdOutput

  /** `SoftwareInfo.Program`; a field nobody assigned stays `null`. */
  datatype Program = Program(
    name: Option<string>,
    version: Option<string>,
    installLocation: Option<string>,
    publisher: Option<string>)

  /** `SoftwareInfo.Driver`. */
  datatype Driver = Driver(name: string, displayName: string, version: string, provider: string)

  const UninstallRoots: seq<string> := [
    "HKLM\\SOFTWARE\\Microsoft\\Windows\\CurrentVersion\\Uninstall",
    "HKLM\\SOFTWARE\\WOW6432Node\\Microsoft\\Windows\\CurrentVersion\\Uninstall",
    "HKCU\\SOFTWARE\\Microsoft\\Windows\\CurrentVersion\\Uninstall"
  ]
  const KeyPrefix := "HKEY"
  const ValueSeparator := "    "
  const DriverQuery: seq<string> := ["driverquery", "/FO", "CSV", "/V"]

  function ListKeys(root: string): seq<string> {
    ["reg", "query", root]
  }

  function QueryValue(key: string, field: string): seq<string> {
    ["reg", "query", key, "/v", field]
  }

  // ---------------------------------------------------------------- value lines

  /**
   * The value a `reg query /v` output line gives for `field`: the trimmed line must start
   * with the field name and split on four blanks into at least three pieces; the value is
   * the last piece, trimmed.
   */
  function ValueOf(line: string, field: string): Option<string> {
    ValueOfTrimmed(Trim(line), field)
  }

  function ValueOfTrimmed(t: string, field: string): Option<string> {
    if !StartsWith(t, field) then None else ValueOfParts(SplitLiteral(t, ValueSeparator))
  }

  /** The last of at least three pieces, trimmed. */
  function ValueOfParts(parts: seq<string>): Option<string> {
    if |parts| >= 3 then Some(Trim(parts[|parts| - 1])) else None
  }

  /** The value of the last line that yields one: later matches overwrite earlier ones. */
  function LastValue(lines: seq<string>, field: string): Option<string> {
    LastSome(lines, line => ValueOf(line, field))
  }

  /** The read loop of `queryProgramDetails` for one field: each matching line overwrites. */
  method ExtractField(lines: seq<string>, field: string) returns (value: Option<string>)
    ensures value.None? <==> forall k :: 0 <= k < |lines| ==> ValueOf(lines[k], field).None?
    ensures value.Some? ==>
              exists k :: 0 <= k < |lines| && ValueOf(lines[k], field) == value &&
                forall j :: k < j < |lines| ==> ValueOf(lines[j], field).None?
    ensures value == LastValue(lines, field)
  {
    value := None;
    var i := 0;
    while i < |lines|
      invariant 0 <= i <= |lines|
      invariant value == LastValue(lines[..i], field)
    {
      assert lines[..i + 1][..i] == lines[..i];
      var v := ValueOf(lines[i], field);
      if v.Some? {
        value := v;
      }
      i := i + 1;
    }
    assert lines[..i] == lines;
    LastSomeIsLatest(lines, line => ValueOf(line, field));
  }

  /** `field    kind    value` splits on four blanks into exactly those three pieces. */
  lemma {:induction false} SplitValueLine(field: string, kind: string, value: string)
    requires IsWord(field) && IsWord(kind)
    requires value != [] && !Contains(value, ValueSeparator)
    ensures SplitLiteral(field + (ValueSeparator + (kind + (ValueSeparator + value))), ValueSeparator)
            == [field, kind, value]
  {
    var sep := ValueSeparator;
    NoBlankRun(field, sep);
    NoBlankRun(kind, sep);
    PiecesAfterPiece(field, sep, kind + (sep + value));
    PiecesAfterPiece(kind, sep, value);
    PiecesAbsent(value, sep);
    var ps := Pieces(field + (sep + (kind + (sep + value))), sep);
    assert ps == [field, kind, value];
    assert DropTrailingEmpty(ps) == ps;
  }

  /**
   * The line shape `reg query` prints, `<indent><field>    <type>    <value>`, yields the
   * value for its field.
   */
  lemma {:induction false} RegistryLineValue(indent: string, field: string, kind: string, value: string)
    requires AllTrimmable(indent) && IsWord(field) && IsWord(kind)
    requires value != [] && IsTrimmed(value) && !Contains(value, ValueSeparator)
    ensures ValueOf(indent + (field + (ValueSeparator + (kind + (ValueSeparator + value)))), field) == Some(value)
  {
    var sep := ValueSeparator;
    var tail := sep + (kind + (sep + value));
    var x := field + tail;
    assert x[0] == field[0];
    assert x[|x| - 1] == tail[|tail| - 1] == value[|value| - 1];
    assert x + "" == x;
    TrimPadded(indent, x, "");
    assert Trim(indent + x) == x;
    assert StartsWith(x, field) by { assert x[..|field|] == field; }
    SplitValueLine(field, kind, value);
    TrimOfTrimmed(value);
    ValueOfSplit(indent + x, field, [field, kind, value]);
  }

  /** Unfolding `ValueOf` once the trimmed line is known to start with the field and split. */
  lemma {:induction false} ValueOfSplit(line: string, field: string, parts: seq<string>)
    requires StartsWith(Trim(line), field) && SplitLiteral(Trim(line), ValueSeparator) == parts
    requires |parts| >= 3
    ensures ValueOf(line, field) == Some(Trim(parts[|parts| - 1]))
  {
  }

  /** A value line whose value is empty has only two pieces left after `trim`, so it is skipped. */
  lemma {:induction false} EmptyValueSkipped(indent: string, field: string, kind: string)
    requires AllTrimmable(indent) && IsWord(field) && IsWord(kind)
    ensures ValueOf(indent + (field + (ValueSeparator + kind) + ValueSeparator), field).None?
  {
    var x := field + (ValueSeparator + kind);
    TrimmedFieldKind(indent, field, kind);
    FieldKindTwoPieces(field, kind);
    ValueOfFewPieces(indent + (x + ValueSeparator), field);
  }

  lemma {:induction false} TrimmedFieldKind(indent: string, field: string, kind: string)
    requires AllTrimmable(indent) && IsWord(field) && IsWord(kind)
    ensures Trim(indent + (field + (ValueSeparator + kind) + ValueSeparator)) == field + (ValueSeparator + kind)
  {
    var sep := ValueSeparator;
    var x := field + (sep + kind);
    assert x[0] == field[0];
    assert x[|x| - 1] == kind[|kind| - 1];
    assert AllTrimmable(sep);
    TrimPadded(indent, x, sep);
    assert indent + (x + sep) == indent + (field + (sep + kind) + sep);
  }

  lemma {:induction false} FieldKindTwoPieces(field: string, kind: string)
    requires IsWord(field) && IsWord(kind)
    ensures |SplitLiteral(field + (ValueSeparator + kind), ValueSeparator)| < 3
  {
    var sep := ValueSeparator;
    NoBlankRun(field, sep);
    PiecesAfterPiece(field, sep, kind);
    NotContainsFirstChar(kind, sep);
    PiecesAbsent(kind, sep);
    assert Pieces(field + (sep + kind), sep) == [field] + [kind];
  }

  /** A trimmed line splitting into fewer than three pieces gives no value. */
  lemma {:induction false} ValueOfFewPieces(line: string, field: string)
    requires |SplitLiteral(Trim(line), ValueSeparator)| < 3
    ensures ValueOf(line, field).None?
  {
  }

  // ---------------------------------------------------------------- programs

  /**
   * `queryProgramDetails(key)`: the four value queries; a program exactly when none of
   * them threw and a `DisplayName` value was extracted, with every field the last value
   * its query yielded.
   */
  function QueryProgram(shell: Shell, key: string): (r: Option<Program>)
    ensures r.Some? <==>
              !shell(QueryValue(key, "DisplayName")).aborted &&
              !shell(QueryValue(key, "DisplayVersion")).aborted &&
              !shell(QueryValue(key, "InstallLocation")).aborted &&
              !shell(QueryValue(key, "Publisher")).aborted &&
              LastValue(shell(QueryValue(key, "DisplayName")).lines, "DisplayName").Some?
    ensures r.Some? ==>
              r.value.name == LastValue(shell(QueryValue(key, "DisplayName")).lines, "DisplayName") &&
              r.value.version == LastValue(shell(QueryValue(key, "DisplayVersion")).lines, "DisplayVersion") &&
              r.value.installLocation == LastValue(shell(QueryValue(key, "InstallLocation")).lines, "InstallLocation") &&
              r.value.publisher == LastValue(shell(QueryValue(key, "Publisher")).lines, "Publisher")
  {
    var name := shell(QueryValue(key, "DisplayName"));
    var version := shell(QueryValue(key, "DisplayVersion"));
    var location := shell(QueryValue(key, "InstallLocation"));
    var publisher := shell(QueryValue(key, "Publisher"));
    if name.aborted || version.aborted || location.aborted || publisher.aborted then None
    else
      var n := LastValue(name.lines, "DisplayName");
      if n.None? then None
      else Some(Program(n,
                        LastValue(version.lines, "DisplayVersion"),
                        LastValue(location.lines, "InstallLocation"),
                        LastValue(publisher.lines, "Publisher")))
  }

  /** A line of a key listing: its trimmed text is queried when it names a key. */
  function KeyProgram(shell: Shell, line: string): Option<Program> {
    var key := Trim(line);
    if StartsWith(key, KeyPrefix) then QueryProgram(shell, key) else None
  }

  /** The programs one key listing contributes, in line order. */
  function ListingPrograms(shell: Shell, lines: seq<string>): seq<Program> {
    Collect(lines, line => KeyProgram(shell, line))
  }

  /**
   * `detectInstalledPrograms`: each root in turn; a root whose listing threw keeps what
   * its lines read so far gave and ends the whole detection.
   */
  function ProgramsFrom(shell: Shell, roots: seq<string>): seq<Program>
    decreases |roots|
  {
    if roots == [] then []
    else
      var out := shell(ListKeys(roots[0]));
      var found := ListingPrograms(shell, out.lines);
      if out.aborted then found else found + ProgramsFrom(shell, roots[1..])
  }

  function InstalledPrograms(shell: Shell): seq<Program> {
    ProgramsFrom(shell, UninstallRoots)
  }

  /** Every listed program came from a key line of the listing and has a name. */
  lemma {:induction false} ListingProgramsFromKeys(shell: Shell, lines: seq<string>)
    ensures forall p :: p in ListingPrograms(shell, lines) ==>
              p.name.Some? &&
              exists k :: 0 <= k < |lines| && StartsWith(Trim(lines[k]), KeyPrefix) &&
                QueryProgram(shell, Trim(lines[k])) == Some(p)
  {
    CollectFromLines(lines, line => KeyProgram(shell, line));
  }

  /** A listing without key lines contributes nothing, whatever the shell answers. */
  lemma {:induction false} NoKeyLinesNoPrograms(shell: Shell, lines: seq<string>)
    requires forall k :: 0 <= k < |lines| ==> !StartsWith(Trim(lines[k]), KeyPrefix)
    ensures ListingPrograms(shell, lines) == []
  {
    CollectEmptyIff(lines, line => KeyProgram(shell, line));
  }

  /** Every detected program has a name. */
  lemma {:induction false} ProgramsHaveNames(shell: Shell, roots: seq<string>)
    ensures forall p :: p in ProgramsFrom(shell, roots) ==> p.name.Some?
    decreases |roots|
  {
    if roots != [] {
      ListingProgramsFromKeys(shell, shell(ListKeys(roots[0])).lines);
      ProgramsHaveNames(shell, roots[1..]);
    }
  }

  /** A root whose listing threw is the last one read. */
  lemma {:induction false} AbortedListingStops(shell: Shell, roots: seq<string>)
    requires |roots| >= 1 && shell(ListKeys(roots[0])).aborted
    ensures ProgramsFrom(shell, roots) == ListingPrograms(shell, shell(ListKeys(roots[0])).lines)
  {
  }

  /** The programs of each root's listing, roots in order. */
  function ListingsOf(shell: Shell, roots: seq<string>): (parts: seq<seq<Program>>)
    ensures |parts| == |roots|
    ensures forall k :: 0 <= k < |roots| ==> parts[k] == ListingPrograms(shell, shell(ListKeys(roots[k])).lines)
    decreases |roots|
  {
    if roots == [] then []
    else [ListingPrograms(shell, shell(ListKeys(roots[0])).lines)] + ListingsOf(shell, roots[1..])
  }

  function Concat(parts: seq<seq<Program>>): seq<Program>
    decreases |parts|
  {
    if parts == [] then [] else parts[0] + Concat(parts[1..])
  }

  /** With no listing throwing, the result is every root's programs, roots in order. */
  lemma {:induction false} ProgramsOfAllRoots(shell: Shell, roots: seq<string>)
    requires forall k :: 0 <= k < |roots| ==> !shell(ListKeys(roots[k])).aborted
    ensures ProgramsFrom(shell, roots) == Concat(ListingsOf(shell, roots))
    decreases |roots|
  {
    if roots != [] {
      var out := shell(ListKeys(roots[0]));
      assert !out.aborted;
      var found := ListingPrograms(shell, out.lines);
      assert ProgramsFrom(shell, roots) == found + ProgramsFrom(shell, roots[1..]);
      assert forall k :: 0 <= k < |roots[1..]| ==> roots[1..][k] == roots[k + 1];
      ProgramsOfAllRoots(shell, roots[1..]);
      var parts := ListingsOf(shell, roots);
      assert parts == [found] + ListingsOf(shell, roots[1..]);
      assert parts[1..] == ListingsOf(shell, roots[1..]);
      assert Concat(parts) == found + Concat(parts[1..]);
    }
  }

  // ---------------------------------------------------------------- drivers

  /** A `driverquery` row: a driver exactly when it has at least eight tokens. */
  function DriverOfRow(row: string): (r: Option<Driver>)
    ensures r.Some? <==> |CsvSplit(row, false)| >= 8
  {
    var t := CsvSplit(row, false);
    if |t| >= 8 then Some(Driver(t[1], t[0], t[4], t[5])) else None
  }

  /** `detectDrivers`: the first line is the header; every later row is tried in order. */
  function Drivers(out: CmdOutput): seq<Driver> {
    if out.lines == [] then [] else Collect(out.lines[1..], DriverOfRow)
  }

  /** The source's row loop, tokenizing each row with the character loop of `parseCsvLine`. */
  method DetectDrivers(lines: seq<string>) returns (drivers: seq<Driver>)
    ensures drivers == Drivers(CmdOutput(lines, false))
  {
    drivers := [];
    if lines == [] {
      return;
    }
    var rows := lines[1..];
    var i := 0;
    while i < |rows|
      invariant 0 <= i <= |rows|
      invariant drivers == Collect(rows[..i], DriverOfRow)
    {
      var parts := ParseCsvLine(rows[i]);
      assert rows[..i + 1] == rows[..i] + [rows[i]];
      CollectAppend(rows[..i], rows[i], DriverOfRow);
      if |parts| >= 8 {
        drivers := drivers + [Driver(parts[1], parts[0], parts[4], parts[5])];
      }
      i := i + 1;
    }
    assert rows[..i] == rows;
  }

  /** A row has enough tokens exactly when it has seven commas outside quotes. */
  lemma {:induction false} DriverRowIffSevenCommas(row: string)
    ensures DriverOfRow(row).Some? <==> CommasOutside(row, false) >= 7
  {
    TokenCount(row, false);
  }

  /** A quoted row of at least eight fields gives the driver in its positional fields. */
  lemma {:induction false} DriverFromQuotedRow(fs: seq<string>)
    requires |fs| >= 8 && forall k :: 0 <= k < |fs| ==> '"' !in fs[k]
    ensures DriverOfRow(JoinQuoted(fs)) == Some(Driver(fs[1], fs[0], fs[4], fs[5]))
  {
    QuotedRoundTrip(fs);
  }

  /** Drivers keep row order and the header never becomes one. */
  lemma {:induction false} DriversFromRows(header: string, rows: seq<string>)
    ensures Drivers(CmdOutput([header] + rows, false)) == Collect(rows, DriverOfRow)
    ensures |Drivers(CmdOutput([header] + rows, false))| <= |rows|
    ensures forall d :: d in Drivers(CmdOutput([header] + rows, false)) ==>
              exists k :: 0 <= k < |rows| && DriverOfRow(rows[k]) == Some(d)
  {
    assert ([header] + rows)[1..] == rows;
    CollectFromLines(rows, DriverOfRow);
  }
}
