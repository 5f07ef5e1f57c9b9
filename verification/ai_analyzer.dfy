/**
 * The local analyzer: four fact stores (hardware, software, antivirus, network) filled from
 * the inventory readers and the scanners, a keyword router answering questions from them,
 * and an advice builder whose sections are gated by keywords in the request.
 */
module AIAnalyzer {
  import opened Common
  import opened JavaText

  /**
   * What a store can hold, as far as the analyzer looks at it: Java `null`, a boxed `Long`,
   * a boxed `Integer` (which `(long)` refuses to cast), text, a boolean, a list, or a map.
   */
  datatype Value =
    | VNull
    | VLong(n: int)
    | VInt(i: int)
    | VText(s: string)
    | VBool(b: bool)
    | VList(items: seq<Value>)
    | VObj(fields: map<string, Value>)

  /** The analyzer's state: its four key/value stores. */
  datatype Analyzer = Analyzer(
    hardware: map<string, Value>,
    software: map<string, Value>,
    antivirus: map<string, Value>,
    network: map<string, Value>)

  /** What the inventory readers report at the moment the base data is collected. */
  datatype Readings = Readings(cpu: Value, gpu: Value, ram: Value, disk: Value, software: Value)

  /** `Map.get`: the stored value, or Java `null` when the key is absent. */
  function Get(m: map<string, Value>, key: string): (r: Option<Value>)
    ensures r.Some? <==> key in m
    ensures r.Some? ==> r.value == m[key]
  {
    if key in m then Some(m[key]) else None
  }

  /** A new analyzer: every store empty. */
  function NewAnalyzer(): (a: Analyzer)
    ensures a.hardware == map[] && a.software == map[] && a.antivirus == map[] && a.network == map[]
  {
    Analyzer(map[], map[], map[], map[])
  }

  // ---------------------------------------------------------------- fact store

  const HardwareKeys: set<string> := {"CPU", "GPU", "RAM", "Disk"}
  const LastScanKey := "LastScan"

  /** `collectBaseData`: the four hardware readings and the software inventory are (re)stored. */
  function CollectBaseData(a: Analyzer, d: Readings): (b: Analyzer)
    ensures b.hardware.Keys == a.hardware.Keys + HardwareKeys
    ensures b.hardware["CPU"] == d.cpu && b.hardware["GPU"] == d.gpu
    ensures b.hardware["RAM"] == d.ram && b.hardware["Disk"] == d.disk
    ensures forall k :: k in a.hardware && k !in HardwareKeys ==> b.hardware[k] == a.hardware[k]
    ensures b.software.Keys == a.software.Keys + {"Software"} && b.software["Software"] == d.software
    ensures forall k :: k in a.software && k != "Software" ==> b.software[k] == a.software[k]
    ensures b.antivirus == a.antivirus && b.network == a.network
  {
    a.(hardware := StoreHardware(a.hardware, d), software := a.software["Software" := d.software])
  }

  /** The four hardware readings put into the hardware store. */
  function StoreHardware(m: map<string, Value>, d: Readings): map<string, Value> {
    m["CPU" := d.cpu]["GPU" := d.gpu]["RAM" := d.ram]["Disk" := d.disk]
  }

  lemma {:induction false} StoreHardwareLatestWins(m: map<string, Value>, d1: Readings, d2: Readings)
    ensures StoreHardware(StoreHardware(m, d1), d2) == StoreHardware(m, d2)
  {
  }

  /** Collecting again replaces the earlier readings; collecting the same readings twice is collecting once. */
  lemma {:induction false} CollectLatestWins(a: Analyzer, d1: Readings, d2: Readings)
    ensures CollectBaseData(CollectBaseData(a, d1), d2) == CollectBaseData(a, d2)
    ensures CollectBaseData(CollectBaseData(a, d2), d2) == CollectBaseData(a, d2)
  {
    StoreHardwareLatestWins(a.hardware, d1, d2);
    StoreHardwareLatestWins(a.hardware, d2, d2);
    assert a.software["Software" := d1.software]["Software" := d2.software] == a.software["Software" := d2.software];
  }

  /** Storing a scan's JSON under `"LastScan"`. */
  function WithLastScan(m: map<string, Value>, json: string): (r: map<string, Value>)
    ensures r.Keys == m.Keys + {LastScanKey} && r[LastScanKey] == VText(json)
    ensures forall k :: k in m && k != LastScanKey ==> r[k] == m[k]
  {
    m[LastScanKey := VText(json)]
  }

  /**
   * `runAntivirusScan`, given the JSON text the scanner produced: it is stored in the
   * antivirus store and returned; nothing else changes.
   */
  function RunAntivirusScan(a: Analyzer, json: string): (r: (Analyzer, string))
    ensures r.1 == json
    ensures r.0.antivirus == WithLastScan(a.antivirus, json)
    ensures r.0.hardware == a.hardware && r.0.software == a.software && r.0.network == a.network
  {
    (a.(antivirus := WithLastScan(a.antivirus, json)), json)
  }

  /** `runNetworkScan`, the same over the network store. */
  function RunNetworkScan(a: Analyzer, json: string): (r: (Analyzer, string))
    ensures r.1 == json
    ensures r.0.network == WithLastScan(a.network, json)
    ensures r.0.hardware == a.hardware && r.0.software == a.software && r.0.antivirus == a.antivirus
  {
    (a.(network := WithLastScan(a.network, json)), json)
  }

  /** Only the latest scan of each kind is kept, and the two kinds do not interfere. */
  lemma {:induction false} ScansLatestWins(a: Analyzer, j1: string, j2: string, n: string)
    ensures RunAntivirusScan(RunAntivirusScan(a, j1).0, j2).0 == RunAntivirusScan(a, j2).0
    ensures RunNetworkScan(RunNetworkScan(a, j1).0, j2).0 == RunNetworkScan(a, j2).0
    ensures RunNetworkScan(RunAntivirusScan(a, j1).0, n).0 == RunAntivirusScan(RunNetworkScan(a, n).0, j1).0
  {
    assert WithLastScan(WithLastScan(a.antivirus, j1), j2) == WithLastScan(a.antivirus, j2);
    assert WithLastScan(WithLastScan(a.network, j1), j2) == WithLastScan(a.network, j2);
  }

  /** `getAllDataAsJson`, before serialisation: the four stores under their section names. */
  function AllData(a: Analyzer): (m: map<string, Value>)
    ensures m.Keys == {"Hardware", "Software", "Antivirus", "Network"}
  {
    map["Hardware" := VObj(a.hardware), "Software" := VObj(a.software),
        "Antivirus" := VObj(a.antivirus), "Network" := VObj(a.network)]
  }

  /** The snapshot loses nothing: equal snapshots come from equal analyzers, and a scan shows in it. */
  lemma {:induction false} AllDataFaithful(a: Analyzer, b: Analyzer, json: string)
    ensures AllData(a) == AllData(b) ==> a == b
    ensures AllData(RunAntivirusScan(a, json).0)["Antivirus"] == VObj(WithLastScan(a.antivirus, json))
    ensures AllData(RunNetworkScan(a, json).0)["Network"] == VObj(WithLastScan(a.network, json))
  {
    if AllData(a) == AllData(b) {
      assert AllData(a)["Hardware"] == AllData(b)["Hardware"];
      assert AllData(a)["Software"] == AllData(b)["Software"];
      assert AllData(a)["Antivirus"] == AllData(b)["Antivirus"];
      assert AllData(a)["Network"] == AllData(b)["Network"];
    }
  }

  // ---------------------------------------------------------------- questions

  /** The subjects a question can be routed to. */
  datatype Topic = Cpu | Gpu | Ram | Disk | Software | Antivirus | Network

  /** The routing order: the first topic whose keyword occurs wins. */
  const Topics: seq<Topic> := [Cpu, Gpu, Ram, Disk, Software, Antivirus, Network]

  function Keywords(t: Topic): seq<string> {
    match t
    case Cpu => ["cpu"]
    case Gpu => ["gpu"]
    case Ram => ["ram"]
    case Disk => ["disk", "storage"]
    case Software => ["software"]
    case Antivirus => ["virus", "antivirus"]
    case Network => ["network", "ip", "port"]
  }

  function Rank(t: Topic): nat {
    match t
    case Cpu => 0
    case Gpu => 1
    case Ram => 2
    case Disk => 3
    case Software => 4
    case Antivirus => 5
    case Network => 6
  }

  /** Some word of `ws` occurs in `q`. */
  predicate AnyOccurs(q: string, ws: seq<string>)
    decreases |ws|
  {
    |ws| > 0 && (Contains(q, ws[0]) || AnyOccurs(q, ws[1..]))
  }

  predicate Mentions(q: string, t: Topic) {
    AnyOccurs(q, Keywords(t))
  }

  /** `answerQuestion`'s chain of tests, on the question once lower-cased. */
  function RouteLower(q: string): Option<Topic> {
    if Contains(q, "cpu") then Some(Cpu)
    else if Contains(q, "gpu") then Some(Gpu)
    else if Contains(q, "ram") then Some(Ram)
    else if Contains(q, "disk") || Contains(q, "storage") then Some(Disk)
    else if Contains(q, "software") then Some(Software)
    else if Contains(q, "virus") || Contains(q, "antivirus") then Some(Antivirus)
    else if Contains(q, "network") || Contains(q, "ip") || Contains(q, "port") then Some(Network)
    else None
  }

  function Route(question: string): Option<Topic> {
    RouteLower(ToLower(question))
  }

  lemma {:induction false} AnyOccursOne(q: string, a: string)
    ensures AnyOccurs(q, [a]) <==> Contains(q, a)
  {
    assert [a][1..] == [];
  }

  lemma {:induction false} AnyOccursTwo(q: string, a: string, b: string)
    ensures AnyOccurs(q, [a, b]) <==> Contains(q, a) || Contains(q, b)
  {
    assert [a, b][1..] == [b];
    AnyOccursOne(q, b);
  }

  lemma {:induction false} AnyOccursThree(q: string, a: string, b: string, c: string)
    ensures AnyOccurs(q, [a, b, c]) <==> Contains(q, a) || Contains(q, b) || Contains(q, c)
  {
    assert [a, b, c][1..] == [b, c];
    AnyOccursTwo(q, b, c);
  }

  /** Each topic's mention test, spelled out over its keywords. */
  lemma {:induction false} MentionsSpelledOut(q: string)
    ensures Mentions(q, Cpu) <==> Contains(q, "cpu")
    ensures Mentions(q, Gpu) <==> Contains(q, "gpu")
    ensures Mentions(q, Ram) <==> Contains(q, "ram")
    ensures Mentions(q, Disk) <==> Contains(q, "disk") || Contains(q, "storage")
    ensures Mentions(q, Software) <==> Contains(q, "software")
    ensures Mentions(q, Antivirus) <==> Contains(q, "virus") || Contains(q, "antivirus")
    ensures Mentions(q, Network) <==> Contains(q, "network") || Contains(q, "ip") || Contains(q, "port")
  {
    AnyOccursOne(q, "cpu");
    AnyOccursOne(q, "gpu");
    AnyOccursOne(q, "ram");
    AnyOccursTwo(q, "disk", "storage");
    AnyOccursOne(q, "software");
    AnyOccursTwo(q, "virus", "antivirus");
    AnyOccursThree(q, "network", "ip", "port");
  }

  /** Reference: the first topic of `ts` that the question mentions. */
  function FirstMentioned(q: string, ts: seq<Topic>): (r: Option<Topic>)
    ensures r.Some? ==> r.value in ts && Mentions(q, r.value)
    decreases |ts|
  {
    if ts == [] then None
    else if Mentions(q, ts[0]) then Some(ts[0])
    else FirstMentioned(q, ts[1..])
  }

  /** The chain of tests picks the first mentioned topic in the routing order. */
  lemma {:induction false} RouteIsFirstMentioned(question: string)
    ensures Route(question) == FirstMentioned(ToLower(question), Topics)
  {
    var q := ToLower(question);
    MentionsSpelledOut(q);
    assert Topics[1..] == [Gpu, Ram, Disk, Software, Antivirus, Network];
    assert Topics[2..] == [Ram, Disk, Software, Antivirus, Network];
    assert Topics[3..] == [Disk, Software, Antivirus, Network];
    assert Topics[4..] == [Software, Antivirus, Network];
    assert Topics[5..] == [Antivirus, Network];
    assert Topics[6..] == [Network];
    assert Topics[7..] == [];
  }

  /**
   * First match wins: a routed question mentions its topic and none ranked before it, and a
   * question is left unrecognised exactly when it mentions no topic at all.
   */
  lemma {:induction false} RouteFirstMatchWins(question: string)
    ensures Route(question).Some? ==>
              Mentions(ToLower(question), Route(question).value) &&
              forall t :: Rank(t) < Rank(Route(question).value) ==> !Mentions(ToLower(question), t)
    ensures Route(question).None? <==> forall t :: !Mentions(ToLower(question), t)
  {
    var q := ToLower(question);
    MentionsSpelledOut(q);
    forall t | Route(question).Some? && Rank(t) < Rank(Route(question).value)
      ensures !Mentions(q, t)
    {
      match t
      case Cpu =>
      case Gpu =>
      case Ram =>
      case Disk =>
      case Software =>
      case Antivirus =>
      case Network =>
    }
    if Route(question).None? {
      forall t
        ensures !Mentions(q, t)
      {
        match t
        case Cpu =>
        case Gpu =>
        case Ram =>
        case Disk =>
        case Software =>
        case Antivirus =>
        case Network =>
      }
    } else {
      assert Mentions(q, Route(question).value);
    }
  }

  /** The `antivirus` keyword adds nothing: every question containing it contains `virus`. */
  lemma {:induction false} AntivirusKeywordRedundant(q: string)
    ensures Contains(q, "antivirus") ==> Contains(q, "virus")
  {
    ContainsIffOccurs(q, "antivirus");
    if Contains(q, "antivirus") {
      var i :| OccursAt(q, "antivirus", i);
      assert q[i + 4..i + 9] == q[i..i + 9][4..];
      ContainsAt(q, "virus", i + 4);
    }
  }

  /** A question naming the CPU and the network is answered about the CPU. */
  lemma {:induction false} CpuBeatsNetwork(question: string)
    requires question == "cpu and network"
    ensures Route(question) == Some(Cpu)
  {
    ToLowerOfLower(question);
    ContainsOfPrefix(question, "cpu");
  }

  /**
   * Any question spelling `program`, in any case, is answered about the RAM unless it names
   * the CPU or the GPU: `ram` occurs inside `program`.
   */
  lemma {:induction false} ProgramMeansRam(question: string)
    requires var q := ToLower(question); Contains(q, "program") && !Contains(q, "cpu") && !Contains(q, "gpu")
    ensures Route(question) == Some(Ram)
  {
    var q := ToLower(question);
    ContainsIffOccurs(q, "program");
    var i :| OccursAt(q, "program", i);
    assert q[i + 4..i + 7] == q[i..i + 7][4..];
    ContainsAt(q, "ram", i + 4);
  }

  /**
   * `ip` inside any word — "zip", "tip", "script" — sends a question that names no earlier
   * topic to the network store.
   */
  lemma {:induction false} ZipMeansNetwork(question: string)
    requires var q := ToLower(question); Contains(q, "zip") && forall t :: Rank(t) < Rank(Network) ==> !Mentions(q, t)
    ensures Route(question) == Some(Network)
  {
    var q := ToLower(question);
    ContainsIffOccurs(q, "zip");
    var i :| OccursAt(q, "zip", i);
    assert q[i + 1..i + 3] == q[i..i + 3][1..];
    ContainsAt(q, "ip", i + 1);
    assert !Mentions(q, Cpu) && !Mentions(q, Gpu) && !Mentions(q, Ram) && !Mentions(q, Disk);
    assert !Mentions(q, Software) && !Mentions(q, Antivirus);
    MentionsSpelledOut(q);
  }

  /** Matching ignores case: a question and its lower-cased form are routed alike. */
  lemma {:induction false} RouteIgnoresCase(question: string)
    ensures Route(ToLower(question)) == Route(question)
  {
    assert ToLower(ToLower(question)) == ToLower(question);
  }

  /** The fixed JSON object `{"error":"<message>"}` the analyzer answers with when it has nothing to say. */
  function JsonError(message: string): (r: string)
    ensures |r| == |message| + 12
    ensures r[..10] == "{\"error\":\"" && r[10..|r| - 2] == message && r[|r| - 2..] == "\"}"
  {
    "{\"error\":\"" + message + "\"}"
  }

  const NotRecognized :=
    JsonError("Domanda non riconosciuta. Posso rispondere solo su hardware, software, antivirus e rete locale.")

  /** An answer: a stored value to be serialised (`None` is Java `null`), or a fixed text. */
  datatype Reply = Serialized(value: Option<Value>) | Fixed(text: string)

  /** Which store, under which key, answers a topic. */
  function Source(a: Analyzer, t: Topic): (m: map<string, Value>) {
    match t
    case Cpu | Gpu | Ram | Disk => a.hardware
    case Software => a.software
    case Antivirus => a.antivirus
    case Network => a.network
  }

  function KeyOf(t: Topic): string {
    match t
    case Cpu => "CPU"
    case Gpu => "GPU"
    case Ram => "RAM"
    case Disk => "Disk"
    case Software => "Software"
    case Antivirus | Network => LastScanKey
  }

  /** `answerQuestion`, before serialisation. */
  function AnswerQuestion(a: Analyzer, question: string): (r: Reply)
    ensures r.Fixed? <==> Route(question).None?
    ensures r.Fixed? ==> r.text == NotRecognized
    ensures Route(question) == Some(Cpu) ==> r == Serialized(Get(a.hardware, "CPU"))
    ensures Route(question) == Some(Gpu) ==> r == Serialized(Get(a.hardware, "GPU"))
    ensures Route(question) == Some(Ram) ==> r == Serialized(Get(a.hardware, "RAM"))
    ensures Route(question) == Some(Disk) ==> r == Serialized(Get(a.hardware, "Disk"))
    ensures Route(question) == Some(Software) ==> r == Serialized(Get(a.software, "Software"))
    ensures Route(question) == Some(Antivirus) ==> r == Serialized(Get(a.antivirus, LastScanKey))
    ensures Route(question) == Some(Network) ==> r == Serialized(Get(a.network, LastScanKey))
  {
    match Route(question)
    case None => Fixed(NotRecognized)
    case Some(t) => Serialized(Get(Source(a, t), KeyOf(t)))
  }

  /** After a scan, a question routed to that scan's topic is answered with the scan's JSON. */
  lemma {:induction false} ScanAnsweredBack(a: Analyzer, json: string, question: string)
    ensures Route(question) == Some(Antivirus) ==>
              AnswerQuestion(RunAntivirusScan(a, json).0, question) == Serialized(Some(VText(json)))
    ensures Route(question) == Some(Network) ==>
              AnswerQuestion(RunNetworkScan(a, json).0, question) == Serialized(Some(VText(json)))
  {
  }

  /** Before any scan, a scan question is answered with `null`. */
  lemma {:induction false} UnscannedAnswersNull(a: Analyzer, question: string)
    requires LastScanKey !in a.antivirus && LastScanKey !in a.network
    requires Route(question) == Some(Antivirus) || Route(question) == Some(Network)
    ensures AnswerQuestion(a, question) == Serialized(None)
  {
  }

  /** After collecting, each hardware or software question is answered with the reading collected for it. */
  lemma {:induction false} CollectedAnsweredBack(a: Analyzer, d: Readings, question: string)
    ensures Route(question) == Some(Cpu) ==> AnswerQuestion(CollectBaseData(a, d), question) == Serialized(Some(d.cpu))
    ensures Route(question) == Some(Gpu) ==> AnswerQuestion(CollectBaseData(a, d), question) == Serialized(Some(d.gpu))
    ensures Route(question) == Some(Ram) ==> AnswerQuestion(CollectBaseData(a, d), question) == Serialized(Some(d.ram))
    ensures Route(question) == Some(Disk) ==> AnswerQuestion(CollectBaseData(a, d), question) == Serialized(Some(d.disk))
    ensures Route(question) == Some(Software) ==>
              AnswerQuestion(CollectBaseData(a, d), question) == Serialized(Some(d.software))
  {
  }

  // ---------------------------------------------------------------- advice

  /** Why building the advice can throw: a cast the stored value does not fit, or unboxing `null`. */
  datatype Fault = ClassCast | NullUnboxing

  datatype Outcome<T> = Done(value: T) | Thrown(fault: Fault)

  const GiB := 1024 * 1024 * 1024
  const RamThreshold := 16 * GiB
  const FreeSpaceThreshold := 50 * GiB

  // Texts longer than a few dozen characters are written as concatenations of shorter
  // literals, so that the verifier can look at their characters.
  const HardwareHeader := "Consigli hardware:"
  const RamLine := "- Considera un upgrade della RAM."
  const DiskLine := "- Pochi GB liberi, " + "valuta pulizia o upgrade."
  const SecurityHeader := "Consigli sicurezza:"
  const ScanRegularly := "- Esegui regolarmente " + "scansioni antivirus."
  const NoRecentScan := "- Nessuna scansione " + "antivirus recente rilevata."
  const NetworkHeader := "Consigli rete:"
  const FirewallLine := "- Mantieni il firewall " + "attivo e monitora le porte."
  const NoAdvice := JsonError("Non ho consigli per questa richiesta specifica.")

  /**
   * Casting a stored value to a map, and its `key` entry, if present, to `long`: whether the
   * reading is below `threshold`. `null` or a missing entry reads as "nothing to say".
   */
  function BelowThreshold(v: Option<Value>, key: string, threshold: int): Outcome<bool> {
    match v
    case None => Done(false)
    case Some(VNull) => Done(false)
    case Some(VObj(m)) =>
      if key !in m then Done(false)
      else (match m[key]
        case VLong(n) => Done(n < threshold)
        case VNull => Thrown(NullUnboxing)
        case _ => Thrown(ClassCast))
    case Some(_) => Thrown(ClassCast)
  }

  /** The reading is a map whose `key` entry is a `long` below `threshold`. */
  predicate ReadingBelow(v: Option<Value>, key: string, threshold: int) {
    v.Some? && v.value.VObj? && key in v.value.fields &&
    v.value.fields[key].VLong? && v.value.fields[key].n < threshold
  }

  /** The reading does not fit the casts: neither `null` nor a map, or a map whose `key` entry is not a `long`. */
  predicate Malformed(v: Option<Value>, key: string) {
    v.Some? && !v.value.VNull? &&
    (!v.value.VObj? || (key in v.value.fields && !v.value.fields[key].VLong?))
  }

  /** The cast-and-compare step against its declarative reading. */
  lemma {:induction false} BelowThresholdMeaning(v: Option<Value>, key: string, threshold: int)
    ensures BelowThreshold(v, key, threshold).Thrown? <==> Malformed(v, key)
    ensures BelowThreshold(v, key, threshold) == Done(true) <==> ReadingBelow(v, key, threshold)
  {
  }

  predicate HardwareAsked(q: string) { Contains(q, "hardware") || Contains(q, "performance") }
  predicate SecurityAsked(q: string) { Contains(q, "antivirus") || Contains(q, "virus") || Contains(q, "security") }
  predicate NetworkAsked(q: string) { Contains(q, "network") || Contains(q, "ip") || Contains(q, "porta") }

  /** The hardware section: the RAM check, then the disk check; a failed cast ends the whole call. */
  function HardwareSection(a: Analyzer): Outcome<seq<string>> {
    match BelowThreshold(Get(a.hardware, "RAM"), "total", RamThreshold)
    case Thrown(f) => Thrown(f)
    case Done(lowRam) =>
      match BelowThreshold(Get(a.hardware, "Disk"), "freeSpace", FreeSpaceThreshold)
      case Thrown(f) => Thrown(f)
      case Done(lowDisk) =>
        Done([HardwareHeader] + (if lowRam then [RamLine] else []) + (if lowDisk then [DiskLine] else []))
  }

  function SecuritySection(a: Analyzer): seq<string> {
    [SecurityHeader, if LastScanKey in a.antivirus then ScanRegularly else NoRecentScan]
  }

  const NetworkSection: seq<string> := [NetworkHeader, FirewallLine]

  /** The advice lines for a request, in the order the sections are appended. */
  function AdviceLines(a: Analyzer, request: string): Outcome<seq<string>> {
    var q := ToLower(request);
    var hw := if HardwareAsked(q) then HardwareSection(a) else Done([]);
    match hw
    case Thrown(f) => Thrown(f)
    case Done(h) =>
      Done(h + (if SecurityAsked(q) then SecuritySection(a) else []) + (if NetworkAsked(q) then NetworkSection else []))
  }

  /** `getAdvice`: the advice lines, each ended by a newline, or the fixed no-advice text. */
  function GetAdvice(a: Analyzer, request: string): (r: Outcome<string>)
    ensures r.Thrown? <==> AdviceLines(a, request).Thrown?
  {
    match AdviceLines(a, request)
    case Thrown(f) => Thrown(f)
    case Done(lines) => Done(if lines == [] then NoAdvice else LineText(lines))
  }

  /** Only the hardware section can throw, and only on a reading that does not fit its casts. */
  lemma {:induction false} AdviceFaults(a: Analyzer, request: string)
    ensures GetAdvice(a, request).Thrown? <==>
              HardwareAsked(ToLower(request)) &&
              (Malformed(Get(a.hardware, "RAM"), "total") || Malformed(Get(a.hardware, "Disk"), "freeSpace"))
  {
    BelowThresholdMeaning(Get(a.hardware, "RAM"), "total", RamThreshold);
    BelowThresholdMeaning(Get(a.hardware, "Disk"), "freeSpace", FreeSpaceThreshold);
  }

  /** The fixed no-advice text is given exactly when the request opens no section. */
  lemma {:induction false} NoAdviceIffNoSection(a: Analyzer, request: string)
    requires GetAdvice(a, request).Done?
    ensures GetAdvice(a, request).value == NoAdvice <==>
              var q := ToLower(request); !HardwareAsked(q) && !SecurityAsked(q) && !NetworkAsked(q)
  {
    var q := ToLower(request);
    var lines := AdviceLines(a, request).value;
    if HardwareAsked(q) || SecurityAsked(q) || NetworkAsked(q) {
      assert lines != [] && (lines[0] == HardwareHeader || lines[0] == SecurityHeader || lines[0] == NetworkHeader);
      assert LineText(lines)[0] == lines[0][0];
    }
  }

  /**
   * The sections come in a fixed order — hardware, security, network — the hardware header
   * first when asked, the security section next, the network section last.
   */
  lemma {:induction false} SectionsInOrder(a: Analyzer, request: string)
    requires AdviceLines(a, request).Done?
    ensures var q := ToLower(request); var ls := AdviceLines(a, request).value;
            (HardwareAsked(q) ==> ls[0] == HardwareHeader) &&
            (!HardwareAsked(q) && SecurityAsked(q) ==> ls[..2] == SecuritySection(a)) &&
            (NetworkAsked(q) ==> |ls| >= 2 && ls[|ls| - 2..] == NetworkSection)
  {
    var q := ToLower(request);
    var h := if HardwareAsked(q) then HardwareSection(a).value else [];
    var sec := if SecurityAsked(q) then SecuritySection(a) else [];
    var net := if NetworkAsked(q) then NetworkSection else [];
    var ls := AdviceLines(a, request).value;
    assert ls == h + sec + net;
    if !HardwareAsked(q) && SecurityAsked(q) {
      assert ls == SecuritySection(a) + net;
      assert ls[..2] == SecuritySection(a);
    }
    if NetworkAsked(q) {
      assert ls[|ls| - 2..] == net;
    }
  }

  /** The security and network headers are there exactly when their keywords are. */
  lemma {:induction false} HeadersIffAsked(a: Analyzer, request: string)
    requires AdviceLines(a, request).Done?
    ensures var q := ToLower(request); var ls := AdviceLines(a, request).value;
            (SecurityHeader in ls <==> SecurityAsked(q)) && (NetworkHeader in ls <==> NetworkAsked(q))
  {
    var q := ToLower(request);
    var h := if HardwareAsked(q) then HardwareSection(a).value else [];
    var sec := if SecurityAsked(q) then SecuritySection(a) else [];
    var net := if NetworkAsked(q) then NetworkSection else [];
    assert AdviceLines(a, request).value == h + sec + net;
    assert SecurityHeader !in h && NetworkHeader !in h;
    assert NetworkHeader !in sec && SecurityHeader !in net;
  }

  /** The RAM line appears exactly when hardware advice was asked and the stored total is below 16 GiB. */
  lemma {:induction false} RamLineIffLowTotal(a: Analyzer, request: string)
    requires AdviceLines(a, request).Done?
    ensures RamLine in AdviceLines(a, request).value <==>
              HardwareAsked(ToLower(request)) && ReadingBelow(Get(a.hardware, "RAM"), "total", RamThreshold)
  {
    BelowThresholdMeaning(Get(a.hardware, "RAM"), "total", RamThreshold);
  }

  /** The disk line appears exactly when hardware advice was asked and the stored free space is below 50 GiB. */
  lemma {:induction false} DiskLineIffLowFreeSpace(a: Analyzer, request: string)
    requires AdviceLines(a, request).Done?
    ensures DiskLine in AdviceLines(a, request).value <==>
              HardwareAsked(ToLower(request)) && ReadingBelow(Get(a.hardware, "Disk"), "freeSpace", FreeSpaceThreshold)
  {
    BelowThresholdMeaning(Get(a.hardware, "Disk"), "freeSpace", FreeSpaceThreshold);
  }

  /** The security line reflects whether an antivirus scan has been stored. */
  lemma {:induction false} SecurityLineFollowsScans(a: Analyzer, request: string, json: string)
    requires SecurityAsked(ToLower(request))
    ensures AdviceLines(a, request).Done? ==>
              (ScanRegularly in AdviceLines(a, request).value <==> LastScanKey in a.antivirus) &&
              (NoRecentScan in AdviceLines(a, request).value <==> LastScanKey !in a.antivirus)
    ensures AdviceLines(RunAntivirusScan(a, json).0, request).Done? ==>
              ScanRegularly in AdviceLines(RunAntivirusScan(a, json).0, request).value
  {
  }

  /** Every text an advice line can be. */
  const AdviceTexts: seq<string> :=
    [HardwareHeader, RamLine, DiskLine, SecurityHeader, ScanRegularly, NoRecentScan, NetworkHeader, FirewallLine]

  lemma {:induction false} AdviceLinesAreFixedTexts(a: Analyzer, request: string)
    requires AdviceLines(a, request).Done?
    ensures forall k :: 0 <= k < |AdviceLines(a, request).value| ==> AdviceLines(a, request).value[k] in AdviceTexts
  {
    var q := ToLower(request);
    var h := if HardwareAsked(q) then HardwareSection(a).value else [];
    var sec := if SecurityAsked(q) then SecuritySection(a) else [];
    var net := if NetworkAsked(q) then NetworkSection else [];
    assert AdviceLines(a, request).value == h + sec + net;
    assert forall x :: x in h ==> x in AdviceTexts;
    assert forall x :: x in sec ==> x in AdviceTexts;
    assert forall x :: x in net ==> x in AdviceTexts;
  }

  lemma {:induction false} HardwareTextsHaveNoNewline()
    ensures HasNoNewline(HardwareHeader) && HasNoNewline(RamLine) && HasNoNewline(DiskLine)
  {
  }

  lemma {:induction false} SecurityTextsHaveNoNewline()
    ensures HasNoNewline(SecurityHeader) && HasNoNewline(ScanRegularly) && HasNoNewline(NoRecentScan)
  {
  }

  lemma {:induction false} NetworkTextsHaveNoNewline()
    ensures HasNoNewline(NetworkHeader) && HasNoNewline(FirewallLine)
  {
  }

  /** The advice text reads back, line by line, as the advice lines. */
  lemma {:induction false} AdviceTextReadsBack(a: Analyzer, request: string)
    requires AdviceLines(a, request).Done? && AdviceLines(a, request).value != []
    ensures GetAdvice(a, request) == Done(LineText(AdviceLines(a, request).value))
    ensures LinesOf(GetAdvice(a, request).value) == AdviceLines(a, request).value
  {
    var ls := AdviceLines(a, request).value;
    AdviceLinesAreFixedTexts(a, request);
    HardwareTextsHaveNoNewline();
    SecurityTextsHaveNoNewline();
    NetworkTextsHaveNoNewline();
    forall k | 0 <= k < |ls|
      ensures HasNoNewline(ls[k])
    {
      assert ls[k] in AdviceTexts;
    }
    LineTextRoundTrip(ls);
  }

  /**
   * With the readers' real shapes — the RAM and disk readers report lists of per-module and
   * per-disk maps — any hardware request after collecting ends in a failed cast.
   */
  lemma {:induction false} CollectedListsBreakHardwareAdvice(a: Analyzer, d: Readings, request: string)
    requires d.ram.VList?
    requires HardwareAsked(ToLower(request))
    ensures GetAdvice(CollectBaseData(a, d), request) == Thrown(ClassCast)
  {
  }
}
