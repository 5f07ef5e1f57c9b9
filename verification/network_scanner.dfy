/**
 * The nmap runner: locate the executable, refuse a blank target, run the scan and fold its
 * output into one record per scanned host.
 *
 * A host record is, as in the source, a single string map: the key `"host"` holds the
 * host name, `"status"` holds `"up"` once a "Host is up" line was seen, and every other key
 * is a port such as `"80/tcp"`. A port line whose first token is `host` or `status`
 * therefore overwrites those entries, exactly as the source's map does.
 */
module NetworkScanner {
  import opened Common
  import opened JavaText
  import opened Platform

  type HostRecord = map<string, string>

  const ReportPrefix := "Nmap scan report for"
  const HostUpPrefix := "Host is up"
  const TcpMarker := "/tcp"

  /** The four absolute paths tried when `nmap` is not runnable from the PATH, in order. */
  const NmapCandidates: seq<string> := [
    "C:\\Program Files (x86)\\Nmap\\nmap.exe",
    "C:\\Program Files\\Nmap\\nmap.exe",
    "C:\\Program Files (x86)\\Nmap\\nmap",
    "C:\\Program Files\\Nmap\\nmap"
  ]

  const NotFoundMessage := "nmap non trovato. Assicurati che nmap sia installato o specifica il percorso assoluto."
  const NoTargetMessage := "Nessun target specificato."

  // ---------------------------------------------------------------- locator

  /**
   * `findNmapExecutable`: `"nmap"` when `nmap --version` starts and exits 0, otherwise the
   * first candidate that exists and is executable, otherwise nothing. Never fails.
   */
  function FindNmap(h: Host): (r: Option<string>)
    ensures h.probe("nmap") == ProbeExited(0) ==> r == Some("nmap")
    ensures h.probe("nmap") != ProbeExited(0) ==>
              r == FirstAccepted(NmapCandidates, c => h.fs.Exists(c) && h.fs.CanExecute(c))
  {
    if h.probe("nmap") == ProbeExited(0) then Some("nmap")
    else FirstAccepted(NmapCandidates, c => h.fs.Exists(c) && h.fs.CanExecute(c))
  }

  /** The outcomes `FindNmap` can have, spelled out against the environment. */
  lemma {:induction false} FindNmapOutcomes(h: Host)
    ensures FindNmap(h).Some? ==> FindNmap(h).value == "nmap" || FindNmap(h).value in NmapCandidates
    ensures FindNmap(h).Some? && FindNmap(h).value != "nmap" ==>
              h.fs.Exists(FindNmap(h).value) && h.fs.CanExecute(FindNmap(h).value)
    ensures FindNmap(h).None? <==>
              h.probe("nmap") != ProbeExited(0) &&
              forall k :: 0 <= k < |NmapCandidates| ==> !(h.fs.Exists(NmapCandidates[k]) && h.fs.CanExecute(NmapCandidates[k]))
  {
  }

  // ---------------------------------------------------------------- line grammar

  /**
   * What one output line means once trimmed. The tests are a priority chain: a line
   * starting with the report prefix is a report even if it mentions "/tcp", and a
   * "Host is up" line is never a port line.
   */
  datatype Line =
    | ReportLine(host: string)                    // opens a new host record
    | HostUpLine                                  // marks the current host as up
    | PortEntry(port: string, description: string) // a "/tcp" line with at least three parts
    | Ignored                                     // anything else, including short "/tcp" lines

  /** `state + " (" + service + ")"` for the parts `port state service ...`. */
  function PortDescription(parts: seq<string>): string
    requires |parts| >= 3
  {
    parts[1] + " (" + parts[2] + ")"
  }

  function Classify(raw: string): Line {
    ClassifyTrimmed(Trim(raw))
  }

  /** The priority chain on an already trimmed line. */
  function ClassifyTrimmed(line: string): Line {
    if StartsWith(line, ReportPrefix) then ReportLine(ReportHost(line))
    else if StartsWith(line, HostUpPrefix) then HostUpLine
    else if Contains(line, TcpMarker) then PortLine(Tokens(line))
    else Ignored
  }

  /** The host of a report line: every occurrence of the prefix removed, then trimmed. */
  function ReportHost(line: string): string {
    Trim(RemoveAll(line, ReportPrefix))
  }

  /** A "/tcp" line's words: a port entry when there are at least three. */
  function PortLine(parts: seq<string>): Line {
    if |parts| >= 3 then PortEntry(parts[0], PortDescription(parts)) else Ignored
  }

  function ClassifyAll(lines: seq<string>): (r: seq<Line>)
    ensures |r| == |lines| && forall i :: 0 <= i < |lines| ==> r[i] == Classify(lines[i])
  {
    seq(|lines|, i requires 0 <= i < |lines| => Classify(lines[i]))
  }

  /** What a non-report line does to the current host record. */
  function Update(h: HostRecord, l: Line): (r: HostRecord)
    ensures h.Keys <= r.Keys
    ensures l.HostUpLine? ==> r.Keys == h.Keys + {"status"} && r["status"] == "up"
    ensures l.PortEntry? ==> r.Keys == h.Keys + {l.port} && r[l.port] == l.description
    ensures !l.HostUpLine? && !l.PortEntry? ==> r == h
    ensures forall k :: k in h && !(l.HostUpLine? && k == "status") && !(l.PortEntry? && k == l.port) ==>
              r[k] == h[k]
  {
    match l
    case HostUpLine => h["status" := "up"]
    case PortEntry(port, description) => h[port := description]
    case _ => h
  }

  // ---------------------------------------------------------------- the parse loop

  /** The loop's state: the hosts flushed so far and the host being filled, or the crash. */
  datatype ParseState =
    | Scanning(done: seq<HostRecord>, current: Option<HostRecord>)
    | NullHost   // a port entry arrived while there was no current host

  function Flush(done: seq<HostRecord>, current: Option<HostRecord>): seq<HostRecord> {
    if current.Some? then done + [current.value] else done
  }

  /** One iteration of the source's read loop. */
  function Step(st: ParseState, l: Line): ParseState {
    match st
    case NullHost => NullHost
    case Scanning(done, current) =>
      if l.ReportLine? then Scanning(Flush(done, current), Some(map["host" := l.host]))
      else if current.Some? then Scanning(done, Some(Update(current.value, l)))
      else if l.PortEntry? then NullHost
      else st
  }

  function Fold(st: ParseState, ls: seq<Line>): ParseState
    decreases |ls|
  {
    if ls == [] then st else Fold(Step(st, ls[0]), ls[1..])
  }

  /** The read loop over classified lines, then the final flush; `None` is the null-host crash. */
  function ParseLines(ls: seq<Line>): Option<seq<HostRecord>> {
    Finish(Fold(Scanning([], None), ls))
  }

  /** After the loop: the final flush, or `None` for the null-host crash. */
  function Finish(st: ParseState): Option<seq<HostRecord>> {
    match st
    case NullHost => None
    case Scanning(done, current) => Some(Flush(done, current))
  }

  /** The host records built from nmap's output lines, or `None` for the null-host crash. */
  function ParseHosts(lines: seq<string>): Option<seq<HostRecord>> {
    ParseLines(ClassifyAll(lines))
  }

  // ---------------------------------------------------------------- reference reading

  /** The position of the first report line at or after `i`, or `|ls|`. */
  function NextReport(ls: seq<Line>, i: nat): (j: nat)
    requires i <= |ls|
    ensures i <= j <= |ls|
    ensures forall k :: i <= k < j ==> !ls[k].ReportLine?
    ensures j < |ls| ==> ls[j].ReportLine?
    decreases |ls| - i
  {
    if i == |ls| || ls[i].ReportLine? then i else NextReport(ls, i + 1)
  }

  /** The updates of a block's body lines applied in order to its host record. */
  function ApplyBody(h: HostRecord, body: seq<Line>): HostRecord
    decreases |body|
  {
    if body == [] then h else ApplyBody(Update(h, body[0]), body[1..])
  }

  /** Output cut at each report line: one record per block, from the block's own lines. */
  function Blocks(ls: seq<Line>): seq<HostRecord>
    requires ls == [] || ls[0].ReportLine?
    decreases |ls|
  {
    if ls == [] then []
    else
      var j := NextReport(ls, 1);
      [ApplyBody(map["host" := ls[0].host], ls[1..j])] + Blocks(ls[j..])
  }

  /**
   * The output read block by block: lines before the first report line may not hold a port
   * entry (there is no host to write it to); after that each report line opens a block.
   */
  function HostsByBlocks(ls: seq<Line>): Option<seq<HostRecord>> {
    var j := NextReport(ls, 0);
    if exists k :: 0 <= k < j && ls[k].PortEntry? then None else Some(Blocks(ls[j..]))
  }

  // ---------------------------------------------------------------- the loop is the block reading

  lemma {:induction false} FoldNullHost(ls: seq<Line>)
    ensures Fold(NullHost, ls) == NullHost
    decreases |ls|
  {
    if ls != [] { FoldNullHost(ls[1..]); }
  }

  /** Body lines of a block only update the current record. */
  lemma {:induction false} FoldBody(done: seq<HostRecord>, h: HostRecord, body: seq<Line>, rest: seq<Line>)
    requires forall k :: 0 <= k < |body| ==> !body[k].ReportLine?
    ensures Fold(Scanning(done, Some(h)), body + rest) == Fold(Scanning(done, Some(ApplyBody(h, body))), rest)
    decreases |body|
  {
    if body == [] {
      assert body + rest == rest;
    } else {
      assert (body + rest)[0] == body[0];
      assert (body + rest)[1..] == body[1..] + rest;
      FoldBody(done, Update(h, body[0]), body[1..], rest);
    }
  }

  /** Lines before the first report line are ignored, unless one of them is a port entry. */
  lemma {:induction false} FoldPreamble(done: seq<HostRecord>, pre: seq<Line>, rest: seq<Line>)
    requires forall k :: 0 <= k < |pre| ==> !pre[k].ReportLine?
    ensures (exists k :: 0 <= k < |pre| && pre[k].PortEntry?) ==> Fold(Scanning(done, None), pre + rest) == NullHost
    ensures (forall k :: 0 <= k < |pre| ==> !pre[k].PortEntry?) ==>
              Fold(Scanning(done, None), pre + rest) == Fold(Scanning(done, None), rest)
    decreases |pre|
  {
    if pre == [] {
      assert pre + rest == rest;
    } else {
      assert (pre + rest)[0] == pre[0];
      assert (pre + rest)[1..] == pre[1..] + rest;
      FoldPreamble(done, pre[1..], rest);
      if pre[0].PortEntry? {
        FoldNullHost(pre[1..] + rest);
      } else {
        assert forall k :: 0 <= k < |pre[1..]| && pre[1..][k].PortEntry? ==> pre[k + 1].PortEntry?;
      }
    }
  }

  /** A report line flushes the current record; the block's body lines then fill the new one. */
  lemma {:induction false} FoldFirstBlock(done: seq<HostRecord>, current: Option<HostRecord>, ls: seq<Line>)
    requires ls != [] && ls[0].ReportLine?
    ensures Fold(Scanning(done, current), ls) ==
            Fold(Scanning(Flush(done, current), Some(ApplyBody(map["host" := ls[0].host], ls[1..NextReport(ls, 1)]))),
                 ls[NextReport(ls, 1)..])
  {
    var j := NextReport(ls, 1);
    var h := map["host" := ls[0].host];
    var d := Flush(done, current);
    assert Fold(Scanning(done, current), ls) == Fold(Scanning(d, Some(h)), ls[1..]);
    assert ls[1..] == ls[1..j] + ls[j..];
    FoldBody(d, h, ls[1..j], ls[j..]);
  }

  /** From a report line on, the loop flushes one record per block. */
  lemma {:induction false} FoldBlocks(done: seq<HostRecord>, current: Option<HostRecord>, ls: seq<Line>)
    requires ls == [] || ls[0].ReportLine?
    ensures Finish(Fold(Scanning(done, current), ls)) == Some(Flush(done, current) + Blocks(ls))
    decreases |ls|
  {
    if ls == [] {
      assert Flush(done, current) + [] == Flush(done, current);
    } else {
      var j := NextReport(ls, 1);
      var b := ApplyBody(map["host" := ls[0].host], ls[1..j]);
      var d := Flush(done, current);
      FoldFirstBlock(done, current, ls);
      FoldBlocks(d, Some(b), ls[j..]);
      assert Blocks(ls) == [b] + Blocks(ls[j..]);
      assert (d + [b]) + Blocks(ls[j..]) == d + ([b] + Blocks(ls[j..]));
    }
  }

  /** The source's single-pass loop computes exactly the block-by-block reading. */
  lemma {:induction false} ParseIsByBlocks(ls: seq<Line>)
    ensures ParseLines(ls) == HostsByBlocks(ls)
  {
    var j := NextReport(ls, 0);
    var pre := ls[..j];
    var rest := ls[j..];
    assert ls == pre + rest;
    assert forall k :: 0 <= k < j ==> pre[k] == ls[k];
    FoldPreamble([], pre, rest);
    FoldBlocks([], None, rest);
    assert Flush([], None) + Blocks(rest) == Blocks(rest);
  }

  // ---------------------------------------------------------------- consequences

  /** The host names of the report lines, in the order the lines appear. */
  function ReportedHosts(ls: seq<Line>): seq<string>
    decreases |ls|
  {
    if ls == [] then []
    else (if ls[0].ReportLine? then [ls[0].host] else []) + ReportedHosts(ls[1..])
  }

  lemma {:induction false} NoReportsBetween(ls: seq<Line>, i: nat, j: nat)
    requires i <= j <= |ls|
    requires forall k :: i <= k < j ==> !ls[k].ReportLine?
    ensures ReportedHosts(ls[i..]) == ReportedHosts(ls[j..])
    decreases j - i
  {
    if i < j {
      assert ls[i..][1..] == ls[i + 1..];
      NoReportsBetween(ls, i + 1, j);
    }
  }

  /** No port entry of `ls` is keyed `"host"`, so no host name gets overwritten. */
  predicate NoHostKeyEntry(ls: seq<Line>) {
    forall k :: 0 <= k < |ls| && ls[k].PortEntry? ==> ls[k].port != "host"
  }

  lemma {:induction false} ApplyBodyHost(h: HostRecord, body: seq<Line>)
    requires "host" in h
    ensures "host" in ApplyBody(h, body)
    ensures NoHostKeyEntry(body) ==> ApplyBody(h, body)["host"] == h["host"]
    decreases |body|
  {
    if body != [] {
      assert NoHostKeyEntry(body) ==> NoHostKeyEntry(body[1..]) by {
        assert forall k :: 0 <= k < |body[1..]| ==> body[1..][k] == body[k + 1];
      }
      ApplyBodyHost(Update(h, body[0]), body[1..]);
    }
  }

  /** Peeling the first block off both readings. */
  lemma {:induction false} BlockStep(ls: seq<Line>)
    requires ls != [] && ls[0].ReportLine?
    ensures Blocks(ls) == [ApplyBody(map["host" := ls[0].host], ls[1..NextReport(ls, 1)])] + Blocks(ls[NextReport(ls, 1)..])
    ensures ReportedHosts(ls) == [ls[0].host] + ReportedHosts(ls[NextReport(ls, 1)..])
  {
    var j := NextReport(ls, 1);
    assert ls[1..][j - 1..] == ls[j..];
    NoReportsBetween(ls[1..], 0, j - 1);
    assert ls[1..][0..] == ls[1..];
  }

  lemma {:induction false} NoHostKeyEntrySplit(ls: seq<Line>, i: nat, j: nat)
    requires i <= j <= |ls| && NoHostKeyEntry(ls)
    ensures NoHostKeyEntry(ls[i..j]) && NoHostKeyEntry(ls[j..])
  {
    assert forall k :: 0 <= k < |ls[i..j]| ==> ls[i..j][k] == ls[k + i];
    assert forall k :: 0 <= k < |ls[j..]| ==> ls[j..][k] == ls[k + j];
  }

  lemma {:induction false} BlocksShape(ls: seq<Line>)
    requires ls == [] || ls[0].ReportLine?
    ensures |Blocks(ls)| == |ReportedHosts(ls)|
    ensures forall k :: 0 <= k < |Blocks(ls)| ==> "host" in Blocks(ls)[k]
    ensures NoHostKeyEntry(ls) ==>
              forall k :: 0 <= k < |Blocks(ls)| ==> Blocks(ls)[k]["host"] == ReportedHosts(ls)[k]
    decreases |ls|
  {
    if ls != [] {
      var j := NextReport(ls, 1);
      var first := ApplyBody(map["host" := ls[0].host], ls[1..j]);
      BlockStep(ls);
      BlocksShape(ls[j..]);
      ApplyBodyHost(map["host" := ls[0].host], ls[1..j]);
      var bs := Blocks(ls);
      var hs := ReportedHosts(ls);
      assert bs[0] == first && hs[0] == ls[0].host;
      assert forall k :: 1 <= k < |bs| ==> bs[k] == Blocks(ls[j..])[k - 1];
      assert forall k :: 1 <= k < |hs| ==> hs[k] == ReportedHosts(ls[j..])[k - 1];
      if NoHostKeyEntry(ls) {
        NoHostKeyEntrySplit(ls, 1, j);
      }
    }
  }

  /**
   * One record per report line, in line order; each record carries a host name, and,
   * unless a port entry keyed "host" overwrote it, the name from its own report line.
   */
  lemma {:induction false} HostsFollowReports(ls: seq<Line>)
    requires ParseLines(ls).Some?
    ensures |ParseLines(ls).value| == |ReportedHosts(ls)|
    ensures forall k :: 0 <= k < |ParseLines(ls).value| ==> "host" in ParseLines(ls).value[k]
    ensures NoHostKeyEntry(ls) ==>
              forall k :: 0 <= k < |ParseLines(ls).value| ==> ParseLines(ls).value[k]["host"] == ReportedHosts(ls)[k]
  {
    ParseIsByBlocks(ls);
    var j := NextReport(ls, 0);
    assert ls[0..] == ls;
    NoReportsBetween(ls, 0, j);
    BlocksShape(ls[j..]);
    assert NoHostKeyEntry(ls) ==> NoHostKeyEntry(ls[j..]) by {
      assert forall k :: 0 <= k < |ls[j..]| ==> ls[j..][k] == ls[k + j];
    }
  }

  /** The parse crashes exactly when a port entry comes before every report line. */
  lemma {:induction false} NullHostIffEarlyPortEntry(ls: seq<Line>)
    ensures ParseLines(ls).None? <==>
              exists k :: 0 <= k < |ls| && ls[k].PortEntry? && forall j :: 0 <= j < k ==> !ls[j].ReportLine?
  {
    ParseIsByBlocks(ls);
    var n := NextReport(ls, 0);
    if exists k :: 0 <= k < |ls| && ls[k].PortEntry? && forall j :: 0 <= j < k ==> !ls[j].ReportLine? {
      var k :| 0 <= k < |ls| && ls[k].PortEntry? && forall j :: 0 <= j < k ==> !ls[j].ReportLine?;
      assert k < n;
    }
  }

  // ---------------------------------------------------------------- single lines

  /**
   * "Nmap scan report for <h>" yields host `h` when `h` is already trimmed and does not
   * itself contain the prefix.
   */
  lemma {:induction false} ClassifyReport(h: string)
    requires h != [] && IsTrimmed(h) && !Contains(h, ReportPrefix)
    ensures Classify(ReportPrefix + " " + h) == ReportLine(h)
  {
    var line := ReportPrefix + " " + h;
    assert IsTrimmed(line);
    TrimOfTrimmed(line);
    assert StartsWith(line, ReportPrefix) by { assert line[..|ReportPrefix|] == ReportPrefix; }
    assert ClassifyTrimmed(line) == ReportLine(ReportHost(line));
    ReportHostOf(h);
  }

  lemma {:induction false} ReportHostOf(h: string)
    requires h != [] && IsTrimmed(h) && !Contains(h, ReportPrefix)
    ensures ReportHost(ReportPrefix + " " + h) == h
  {
    var line := ReportPrefix + " " + h;
    assert StartsWith(line, ReportPrefix) by { assert line[..|ReportPrefix|] == ReportPrefix; }
    assert line[|ReportPrefix|..] == " " + h;
    assert !Contains(" " + h, ReportPrefix) by {
      assert !StartsWith(" " + h, ReportPrefix) by {
        if |ReportPrefix| <= |" " + h| { assert (" " + h)[..|ReportPrefix|][0] == ' '; }
      }
      assert (" " + h)[1..] == h;
    }
    RemoveAllAbsent(" " + h, ReportPrefix);
    assert TrimStart(" " + h) == h by { assert (" " + h)[1..] == h; }
  }

  /** A line whose first word mentions "/tcp" starts with neither of the two prefixes. */
  lemma {:induction false} PortWordIsNoPrefix(port: string, rest: string)
    requires IsWord(port) && Contains(port, TcpMarker) && (rest == [] || IsRegexSpace(rest[0]))
    ensures !StartsWith(port + rest, ReportPrefix) && !StartsWith(port + rest, HostUpPrefix)
  {
    var line := port + rest;
    ContainsLength(port, TcpMarker);
    if |port| == 4 {
      assert port == TcpMarker && line[0] == '/';
      NotStartsWithAt(line, ReportPrefix, 0);
      NotStartsWithAt(line, HostUpPrefix, 0);
    } else {
      assert line[4] == port[4] != ' ';
      NotStartsWithAt(line, ReportPrefix, 4);
      NotStartsWithAt(line, HostUpPrefix, 4);
    }
  }

  /**
   * A port line as nmap lays it out: the port, state and service columns separated by runs of
   * blanks (nmap pads its columns), then possibly more columns.
   */
  function PortLineText(port: string, s1: string, state: string, s2: string, service: string, extra: string): string {
    port + (s1 + (state + (s2 + (service + extra))))
  }

  lemma {:induction false} PortLineIsTrimmed(port: string, s1: string, state: string, s2: string, service: string, extra: string)
    requires IsWord(port) && IsWord(state) && IsWord(service) && IsTail(extra)
    ensures var line := PortLineText(port, s1, state, s2, service, extra); Trim(line) == line
  {
    var line := PortLineText(port, s1, state, s2, service, extra);
    assert line[0] == port[0];
    assert extra == [] ==> line[|line| - 1] == service[|service| - 1];
    assert extra != [] ==> line[|line| - 1] == extra[|extra| - 1];
    TrimOfTrimmed(line);
  }

  /**
   * "<port> <state> <service>", with any runs of `\s` characters between the columns and
   * anything after them, yields the entry `port -> "state (service)"` whenever the port word
   * mentions "/tcp": parts after the third are ignored.
   */
  lemma {:induction false} ClassifyPort(port: string, s1: string, state: string, s2: string, service: string, extra: string)
    requires IsWord(port) && IsWord(state) && IsWord(service) && IsTail(extra)
    requires IsSpaceRun(s1) && IsSpaceRun(s2)
    requires Contains(port, TcpMarker)
    ensures Classify(PortLineText(port, s1, state, s2, service, extra)) == PortEntry(port, state + " (" + service + ")")
  {
    var rest := s1 + (state + (s2 + (service + extra)));
    var line := port + rest;
    PortLineIsTrimmed(port, s1, state, s2, service, extra);
    ThreeWordTokens(port, s1, state, s2, service, extra);
    var parts := Tokens(line);
    assert parts[0] == port && parts[1] == state && parts[2] == service;
    ContainsInPrefix(port, rest, TcpMarker);
    PortWordIsNoPrefix(port, rest);
    assert ClassifyTrimmed(line) == PortLine(parts);
  }

  /** "Host is up" with no current host changes nothing. */
  lemma {:induction false} HostUpWithoutHostIgnored(ls: seq<Line>)
    ensures ParseLines([HostUpLine] + ls) == ParseLines(ls)
  {
    assert ([HostUpLine] + ls)[1..] == ls;
  }

  lemma {:induction false} ExamplePortWords(port: string, state: string, service: string)
    requires port == "80/tcp" && state == "open" && service == "http"
    ensures IsWord(port) && IsWord(state) && IsWord(service) && Contains(port, TcpMarker)
  {
    ContainsAt(port, TcpMarker, 2);
  }

  /**
   * The line the scanner's own comment shows, `80/tcp open  http` with two blanks before the
   * service, gives `80/tcp -> "open (http)"`.
   */
  lemma {:induction false} ExamplePortLine(port: string, state: string, service: string)
    requires port == "80/tcp" && state == "open" && service == "http"
    ensures Classify(PortLineText(port, " ", state, "  ", service, "")) == PortEntry(port, state + " (" + service + ")")
  {
    ExamplePortWords(port, state, service);
    assert IsTail("");
    ClassifyPort(port, " ", state, "  ", service, "");
  }

  /** A report line followed by a port entry parses to one host record holding both. */
  lemma {:induction false} ParseReportThenPort(h: string, port: string, description: string)
    ensures ParseLines([ReportLine(h), PortEntry(port, description)])
            == Some([map["host" := h][port := description]])
  {
    var ls := [ReportLine(h), PortEntry(port, description)];
    var r := map["host" := h];
    var r2 := r[port := description];
    assert Step(Scanning([], None), ls[0]) == Scanning([], Some(r));
    assert Step(Scanning([], Some(r)), ls[1]) == Scanning([], Some(r2));
    assert ls[1..][1..] == [];
    assert Fold(Scanning([], None), ls) == Fold(Scanning([], Some(r2)), []);
    assert Flush([], Some(r2)) == [r2];
  }

  lemma {:induction false} ClassifyAllPair(a: string, b: string)
    ensures ClassifyAll([a, b]) == [Classify(a), Classify(b)]
  {
    var r := ClassifyAll([a, b]);
    assert |r| == 2 && r[0] == Classify([a, b][0]) && r[1] == Classify([a, b][1]);
  }

  /** The two lines of a one-host, one-port scan classify as a report and a port entry. */
  lemma {:induction false} SingleHostLines(h: string, port: string, s1: string, state: string, s2: string, service: string)
    requires h != [] && IsTrimmed(h) && !Contains(h, ReportPrefix)
    requires IsWord(port) && IsWord(state) && IsWord(service) && Contains(port, TcpMarker)
    requires IsSpaceRun(s1) && IsSpaceRun(s2)
    ensures ClassifyAll([ReportPrefix + " " + h, PortLineText(port, s1, state, s2, service, "")])
            == [ReportLine(h), PortEntry(port, state + " (" + service + ")")]
  {
    var a := ReportPrefix + " " + h;
    var b := PortLineText(port, s1, state, s2, service, "");
    ClassifyAllPair(a, b);
    ClassifyReport(h);
    assert IsTail("");
    ClassifyPort(port, s1, state, s2, service, "");
  }

  /**
   * A report line for `h` followed by the port line "<port> <state> <service>" gives one
   * record: its name and that one port entry.
   */
  lemma {:induction false} SingleHost(h: string, port: string, s1: string, state: string, s2: string, service: string)
    requires h != [] && IsTrimmed(h) && !Contains(h, ReportPrefix)
    requires IsWord(port) && IsWord(state) && IsWord(service) && Contains(port, TcpMarker)
    requires IsSpaceRun(s1) && IsSpaceRun(s2)
    ensures ParseHosts([ReportPrefix + " " + h, PortLineText(port, s1, state, s2, service, "")])
            == Some([map["host" := h][port := state + " (" + service + ")"]])
  {
    SingleHostLines(h, port, s1, state, s2, service);
    ParseReportThenPort(h, port, state + " (" + service + ")");
  }

  // ---------------------------------------------------------------- the whole scan

  /** How the nmap process run ended, with the output lines read before that. */
  datatype NmapRun =
    | Ran(lines: seq<string>, exitCode: int)           // stream ended and `waitFor` returned
    | Broke(lines: seq<string>, message: Option<string>) // start, read or wait threw

  datatype ScanFailure =
    | NmapNotFound
    | NoTarget
    | NullHostDereference          // a port entry with no current host
    | ScanError(message: Option<string>)

  datatype NetworkScanResult =
    | Failed(failure: ScanFailure)
    | Finished(executable: string, target: string, hosts: seq<HostRecord>, exitCode: int)

  /** The `"status"` entry of the result. */
  function Status(r: NetworkScanResult): string {
    match r
    case Failed(_) => "failed"
    case Finished(_, _, _, code) => if code == 0 then "completed" else "completed_with_errors"
  }

  /** The `"error"` entry of a failed result; the null-host message is the JVM's own text. */
  function ErrorText(f: ScanFailure): Option<string> {
    match f
    case NmapNotFound => Some(NotFoundMessage)
    case NoTarget => Some(NoTargetMessage)
    case NullHostDereference => None
    case ScanError(m) => m
  }

  predicate HasTarget(target: Option<string>) {
    target.Some? && !IsBlank(target.value)
  }

  /**
   * `scanToJson(target)`: locate nmap, then check the target, then run and parse; any
   * exception, including the null-host one, turns the whole result into a failure.
   */
  function ScanToJson(h: Host, target: Option<string>, run: NmapRun): (r: NetworkScanResult)
    ensures FindNmap(h).None? ==> r == Failed(NmapNotFound)
    ensures FindNmap(h).Some? && !HasTarget(target) ==> r == Failed(NoTarget)
    ensures r.Finished? <==> FindNmap(h).Some? && HasTarget(target) && run.Ran? && ParseHosts(run.lines).Some?
    ensures r.Finished? ==> r == Finished(FindNmap(h).value, target.value, ParseHosts(run.lines).value, run.exitCode)
    ensures FindNmap(h).Some? && HasTarget(target) && ParseHosts(run.lines).None? ==> r == Failed(NullHostDereference)
    ensures FindNmap(h).Some? && HasTarget(target) && ParseHosts(run.lines).Some? && run.Broke? ==>
              r == Failed(ScanError(run.message))
  {
    var exec := FindNmap(h);
    if exec.None? then Failed(NmapNotFound)
    else if !HasTarget(target) then Failed(NoTarget)
    else
      match ParseHosts(run.lines)
      case None => Failed(NullHostDereference)
      case Some(hosts) =>
        match run
        case Broke(_, message) => Failed(ScanError(message))
        case Ran(_, code) => Finished(exec.value, target.value, hosts, code)
  }

  /** The status is one of three words, "failed" exactly for failures, "completed" exactly for exit 0. */
  lemma {:induction false} StatusFromExitCode(h: Host, target: Option<string>, run: NmapRun)
    ensures Status(ScanToJson(h, target, run)) in {"completed", "completed_with_errors", "failed"}
    ensures Status(ScanToJson(h, target, run)) == "failed" <==> ScanToJson(h, target, run).Failed?
    ensures Status(ScanToJson(h, target, run)) == "completed" <==>
              ScanToJson(h, target, run).Finished? && run.exitCode == 0
    ensures Status(ScanToJson(h, target, run)) == "completed_with_errors" <==>
              ScanToJson(h, target, run).Finished? && run.exitCode != 0
  {
  }

  /** A missing executable is reported even when the target is also missing or blank. */
  lemma {:induction false} NotFoundBeatsBlankTarget(h: Host, run: NmapRun)
    requires FindNmap(h).None?
    ensures ScanToJson(h, None, run) == Failed(NmapNotFound)
    ensures ScanToJson(h, Some("  "), run) == Failed(NmapNotFound)
    ensures ErrorText(ScanToJson(h, None, run).failure) == Some(NotFoundMessage)
  {
  }
}
