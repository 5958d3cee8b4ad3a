/** The nic-tuning resource: ring sizes through ethtool, RPS and XPS masks through queue files. */
module NicTuning {
  import opened Numbers
  import opened Text
  import opened Engine
  import opened CpuMask

  // ---- the output of `ethtool -g`

  datatype RingParams = RingParams(maxRX: int, maxTX: int, curRX: int, curTX: int)

  datatype Section = NoSection | MaxSection | CurrentSection

  const MAXIMUMS := "Pre-set maximums"
  const CURRENT := "Current hardware settings"

  predicate RegexpSpace(c: char) { c == ' ' || c == '\t' || c == '\n' || c == '\U{000C}' || c == '\r' }

  function SkipSpace(s: string): string { if s != "" && RegexpSpace(s[0]) then SkipSpace(s[1..]) else s }

  function LeadingDigits(s: string): string {
    if s != "" && IsDigit(s[0]) then [s[0]] + LeadingDigits(s[1..]) else ""
  }

  /** A match of `^(RX|TX):\s+(\d+|n/a)`: whether it is RX, and the number unless it is n/a or too big. */
  function RingLine(trimmed: string): Option<(bool, Option<int>)> {
    if !HasPrefix(trimmed, "RX:") && !HasPrefix(trimmed, "TX:") then None
    else
      var rest := trimmed[3..];
      var value := SkipSpace(rest);
      if |value| == |rest| then None
      else if LeadingDigits(value) != "" then Some((trimmed[0] == 'R', Atoi(LeadingDigits(value))))
      else if HasPrefix(value, "n/a") then Some((trimmed[0] == 'R', None))
      else None
  }

  function Record(rp: RingParams, section: Section, rx: bool, v: int): RingParams {
    match section
    case NoSection => rp
    case MaxSection => if rx then rp.(maxRX := v) else rp.(maxTX := v)
    case CurrentSection => if rx then rp.(curRX := v) else rp.(curTX := v)
  }

  function SectionAfter(line: string, section: Section): Section {
    var trimmed := TrimSpace(line);
    if HasPrefix(trimmed, MAXIMUMS) then MaxSection
    else if HasPrefix(trimmed, CURRENT) then CurrentSection
    else section
  }

  function ParamsAfter(line: string, section: Section, rp: RingParams): RingParams {
    var trimmed := TrimSpace(line);
    if HasPrefix(trimmed, MAXIMUMS) || HasPrefix(trimmed, CURRENT) then rp
    else
      match RingLine(trimmed)
      case Some((rx, Some(v))) => Record(rp, section, rx, v)
      case _ => rp
  }

  function ParseLines(lines: seq<string>, section: Section, rp: RingParams): RingParams
    decreases |lines|
  {
    if lines == [] then rp
    else ParseLines(lines[1..], SectionAfter(lines[0], section), ParamsAfter(lines[0], section, rp))
  }

  function ParseRings(output: string): RingParams {
    ParseLines(Split(output, '\n'), NoSection, RingParams(0, 0, 0, 0))
  }

  method ParseEthtoolRingParams(output: string) returns (rp: RingParams)
    ensures rp == ParseRings(output)
  {
    var lines := Split(output, '\n');
    rp := RingParams(0, 0, 0, 0);
    var section := NoSection;
    for i := 0 to |lines|
      invariant ParseLines(lines[i..], section, rp) == ParseLines(lines, NoSection, RingParams(0, 0, 0, 0))
    {
      assert lines[i..][0] == lines[i] && lines[i..][1..] == lines[i + 1..];
      section, rp := ScanLine(lines[i], section, rp);
    }
  }

  method ScanLine(line: string, section: Section, rp: RingParams) returns (section': Section, rp': RingParams)
    ensures section' == SectionAfter(line, section) && rp' == ParamsAfter(line, section, rp)
  {
    section', rp' := section, rp;
    var trimmed := TrimSpace(line);
    if HasPrefix(trimmed, MAXIMUMS) { return MaxSection, rp; }
    if HasPrefix(trimmed, CURRENT) { return CurrentSection, rp; }
    var m := RingLine(trimmed);
    if m == None { return; }
    var (rx, v) := m.value;
    if v == None { return; }
    if section == MaxSection && rx { rp' := rp'.(maxRX := v.value); }
    else if section == MaxSection && !rx { rp' := rp'.(maxTX := v.value); }
    else if section == CurrentSection && rx { rp' := rp'.(curRX := v.value); }
    else if section == CurrentSection && !rx { rp' := rp'.(curTX := v.value); }
  }

  // ---- what the driver reports

  /** The rings; None where the driver reports n/a. */
  datatype Rings = Rings(maxRX: Option<nat>, maxTX: Option<nat>, curRX: Option<nat>, curTX: Option<nat>)

  function Shown(ring: string, v: Option<nat>): string {
    (ring + ":") + ("\t\t" + ShownValue(v))
  }

  function ShownValue(v: Option<nat>): string {
    match v
    case Some(n) => Itoa(n)
    case None => "n/a"
  }

  function OrZero(v: Option<nat>): nat { if v.Some? then v.value else 0 }

  function Params(r: Rings): RingParams { RingParams(OrZero(r.maxRX), OrZero(r.maxTX), OrZero(r.curRX), OrZero(r.curTX)) }

  predicate InRange(r: Rings) {
    OrZero(r.maxRX) <= MAX_INT64 && OrZero(r.maxTX) <= MAX_INT64 && OrZero(r.curRX) <= MAX_INT64 && OrZero(r.curTX) <= MAX_INT64
  }

  /** A line that neither starts a section nor reports a ring: a title, a mini or jumbo ring, a blank. */
  predicate Inert(line: string) {
    var trimmed := TrimSpace(line);
    !HasPrefix(trimmed, MAXIMUMS) && !HasPrefix(trimmed, CURRENT) && RingLine(trimmed) == None
  }

  predicate AllInert(lines: seq<string>) { forall l :: l in lines ==> Inert(l) && Free(l, Only('\n')) }

  /** The lines of `ethtool -g`, with any other lines around the four that matter. */
  function ReportLines(r: Rings, gaps: seq<seq<string>>): seq<string>
    requires |gaps| == 7
  {
    gaps[0] + ([MAXIMUMS + ":"] + (gaps[1] + ([Shown("RX", r.maxRX)] + (gaps[2] + ([Shown("TX", r.maxTX)] + (gaps[3]
    + ([CURRENT + ":"] + (gaps[4] + ([Shown("RX", r.curRX)] + (gaps[5] + ([Shown("TX", r.curTX)] + gaps[6])))))))))))
  }

  /** Every line but a section's title and one that starts with "RX:" or "TX:" is passed over: mini and jumbo rings, titles,
      blanks. */
  lemma OtherLinesAreInert(line: string)
    requires var t := TrimSpace(line);
      !HasPrefix(t, MAXIMUMS) && !HasPrefix(t, CURRENT) && !HasPrefix(t, "RX:") && !HasPrefix(t, "TX:")
    ensures Inert(line)
  {}

  lemma {:induction false} LeadingDigitsAll(s: string)
    requires AllDigits(s)
    ensures LeadingDigits(s) == s
  {
    if s != "" { LeadingDigitsAll(s[1..]); }
  }

  lemma TwoTabs(value: string)
    requires value != "" && !RegexpSpace(value[0])
    ensures SkipSpace("\t\t" + value) == value
  {
    assert ("\t" + value)[1..] == value;
    assert SkipSpace("\t" + value) == SkipSpace(value) == value;
    assert ("\t\t" + value)[1..] == "\t" + value;
  }

  lemma RingLineReads(line: string, v: Option<nat>)
    requires |line| > 3 && (line[..3] == "RX:" || line[..3] == "TX:")
    requires OrZero(v) <= MAX_INT64 && line[3..] == "\t\t" + ShownValue(v)
    ensures RingLine(line) == Some((line[0] == 'R', if v.Some? then Some(v.value) else None))
  {
    ValueReads(v);
    TwoTabs(ShownValue(v));
  }

  lemma ShownShape(ring: string, v: Option<nat>)
    requires ring == "RX" || ring == "TX"
    requires OrZero(v) <= MAX_INT64
    ensures var line := Shown(ring, v);
      && |line| > 3 && line[..3] == ring + ":" && line[3..] == "\t\t" + ShownValue(v)
      && line[0] == ring[0] && !IsSpace(line[|line| - 1])
  {
    ValueReads(v);
    HeadAndTail(ring + ":", "\t\t" + ShownValue(v));
  }

  lemma HeadAndTail(head: string, tail: string)
    requires head != "" && tail != ""
    ensures (head + tail)[..|head|] == head && (head + tail)[|head|..] == tail
    ensures (head + tail)[0] == head[0] && (head + tail)[|head + tail| - 1] == tail[|tail| - 1]
  {}

  lemma ValueReads(v: Option<nat>)
    requires OrZero(v) <= MAX_INT64
    ensures var value := ShownValue(v);
      && value != "" && !RegexpSpace(value[0]) && !IsSpace(value[|value| - 1])
      && (v.Some? ==> LeadingDigits(value) == value && Atoi(value) == Some(v.value))
      && (v.None? ==> LeadingDigits(value) == "" && HasPrefix(value, "n/a"))
  {
    if v.Some? {
      DigitsRoundTrip(v.value);
      LeadingDigitsAll(Itoa(v.value));
      AtoiItoa(v.value);
    }
  }

  lemma ShownReads(ring: string, v: Option<nat>)
    requires ring == "RX" || ring == "TX"
    requires OrZero(v) <= MAX_INT64
    ensures TrimSpace(Shown(ring, v)) == Shown(ring, v)
    ensures RingLine(Shown(ring, v)) == Some((ring == "RX", if v.Some? then Some(v.value) else None))
    ensures !HasPrefix(Shown(ring, v), MAXIMUMS) && !HasPrefix(Shown(ring, v), CURRENT)
  {
    var line := Shown(ring, v);
    ShownShape(ring, v);
    RingLineReads(line, v);
    TrimTight(line);
    assert MAXIMUMS[0] == 'P' && CURRENT[0] == 'C';
  }

  lemma {:induction false} SkipInert(gap: seq<string>, rest: seq<string>, section: Section, rp: RingParams)
    requires AllInert(gap)
    ensures ParseLines(gap + rest, section, rp) == ParseLines(rest, section, rp)
    decreases |gap|
  {
    if gap == [] {
      assert gap + rest == rest;
    } else {
      assert gap[0] in gap;
      assert (gap + rest)[1..] == gap[1..] + rest;
      SkipInert(gap[1..], rest, section, rp);
    }
  }

  lemma TakeHeader(text: string, rest: seq<string>, section: Section, rp: RingParams)
    requires text == MAXIMUMS || text == CURRENT
    ensures ParseLines([text + ":"] + rest, section, rp)
      == ParseLines(rest, if text == MAXIMUMS then MaxSection else CurrentSection, rp)
  {
    var line := text + ":";
    assert ([line] + rest)[1..] == rest;
    assert line[|line| - 1] == ':' && line[0] == text[0];
    TrimTight(line);
    assert text == CURRENT ==> line[0] != MAXIMUMS[0];
    assert HasPrefix(line, text);
  }

  lemma TakeRing(ring: string, v: Option<nat>, rest: seq<string>, section: Section, rp: RingParams)
    requires ring == "RX" || ring == "TX"
    requires OrZero(v) <= MAX_INT64
    ensures ParseLines([Shown(ring, v)] + rest, section, rp)
      == ParseLines(rest, section, if v.Some? then Record(rp, section, ring == "RX", v.value) else rp)
  {
    assert ([Shown(ring, v)] + rest)[1..] == rest;
    ShownReads(ring, v);
  }

  /** One section of the report: two ring lines among inert ones. */
  lemma TakeSection(g1: seq<string>, rx: Option<nat>, g2: seq<string>, tx: Option<nat>, rest: seq<string>, section: Section, rp: RingParams)
    requires AllInert(g1) && AllInert(g2) && OrZero(rx) <= MAX_INT64 && OrZero(tx) <= MAX_INT64
    ensures ParseLines(g1 + ([Shown("RX", rx)] + (g2 + ([Shown("TX", tx)] + rest))), section, rp)
      == ParseLines(rest, section,
           var mid := if rx.Some? then Record(rp, section, true, rx.value) else rp;
           if tx.Some? then Record(mid, section, false, tx.value) else mid)
  {
    var mid := if rx.Some? then Record(rp, section, true, rx.value) else rp;
    SkipInert(g1, [Shown("RX", rx)] + (g2 + ([Shown("TX", tx)] + rest)), section, rp);
    TakeRing("RX", rx, g2 + ([Shown("TX", tx)] + rest), section, rp);
    SkipInert(g2, [Shown("TX", tx)] + rest, section, mid);
    TakeRing("TX", tx, rest, section, mid);
  }

  /** Parsing inverts the driver's report, whatever other lines it prints. */
  lemma ParseReport(r: Rings, gaps: seq<seq<string>>)
    requires |gaps| == 7 && (forall i :: 0 <= i < 7 ==> AllInert(gaps[i])) && InRange(r)
    ensures ParseLines(ReportLines(r, gaps), NoSection, RingParams(0, 0, 0, 0)) == Params(r)
  {
    var zero := RingParams(0, 0, 0, 0);
    var maxed := RingParams(OrZero(r.maxRX), OrZero(r.maxTX), 0, 0);
    var tail := gaps[4] + ([Shown("RX", r.curRX)] + (gaps[5] + ([Shown("TX", r.curTX)] + gaps[6])));
    var second := gaps[3] + ([CURRENT + ":"] + tail);
    var first := gaps[1] + ([Shown("RX", r.maxRX)] + (gaps[2] + ([Shown("TX", r.maxTX)] + second)));
    SkipInert(gaps[0], [MAXIMUMS + ":"] + first, NoSection, zero);
    TakeHeader(MAXIMUMS, first, NoSection, zero);
    TakeSection(gaps[1], r.maxRX, gaps[2], r.maxTX, second, MaxSection, zero);
    SkipInert(gaps[3], [CURRENT + ":"] + tail, MaxSection, maxed);
    TakeHeader(CURRENT, tail, MaxSection, maxed);
    TakeSection(gaps[4], r.curRX, gaps[5], r.curTX, gaps[6], CurrentSection, maxed);
    SkipInert(gaps[6], [], CurrentSection, Params(r));
    assert gaps[6] + [] == gaps[6];
  }

  function Report(r: Rings, gaps: seq<seq<string>>): string
    requires |gaps| == 7
  {
    Join(ReportLines(r, gaps), "\n")
  }

  ghost predicate ProperGaps(gaps: seq<seq<string>>) { |gaps| == 7 && forall i :: 0 <= i < 7 ==> AllInert(gaps[i]) }

  predicate OneLine(s: string) { Free(s, Only('\n')) }

  lemma ShownOneLine(ring: string, v: Option<nat>)
    requires ring == "RX" || ring == "TX"
    ensures OneLine(Shown(ring, v))
  {
    if v.Some? { ItoaChars(v.value); }
  }

  lemma HeadersOneLine()
    ensures OneLine(MAXIMUMS + ":") && OneLine(CURRENT + ":")
  {
    assert OneLine("Pre-set maximums:");
    var a, b := "Current hardware", " settings:";
    assert OneLine(a) && OneLine(b);
    assert CURRENT + ":" == a + b;
  }

  lemma ReportOneLine(r: Rings, gaps: seq<seq<string>>)
    requires ProperGaps(gaps)
    ensures forall l :: l in ReportLines(r, gaps) ==> OneLine(l)
  {
    HeadersOneLine();
    ShownOneLine("RX", r.maxRX);
    ShownOneLine("TX", r.maxTX);
    ShownOneLine("RX", r.curRX);
    ShownOneLine("TX", r.curTX);
    var tail := gaps[5] + ([Shown("TX", r.curTX)] + gaps[6]);
    GapThenLine(gaps[5], Shown("TX", r.curTX), gaps[6]);
    GapThenLine(gaps[4], Shown("RX", r.curRX), tail);
    var mid := gaps[4] + ([Shown("RX", r.curRX)] + tail);
    GapThenLine(gaps[3], CURRENT + ":", mid);
    var mid2 := gaps[3] + ([CURRENT + ":"] + mid);
    GapThenLine(gaps[2], Shown("TX", r.maxTX), mid2);
    var mid3 := gaps[2] + ([Shown("TX", r.maxTX)] + mid2);
    GapThenLine(gaps[1], Shown("RX", r.maxRX), mid3);
    GapThenLine(gaps[0], MAXIMUMS + ":", gaps[1] + ([Shown("RX", r.maxRX)] + mid3));
  }

  lemma GapThenLine(gap: seq<string>, line: string, rest: seq<string>)
    requires (AllInert(gap) || forall l :: l in gap ==> OneLine(l)) && OneLine(line)
    requires AllInert(rest) || forall l :: l in rest ==> OneLine(l)
    ensures forall l :: l in gap + ([line] + rest) ==> OneLine(l)
  {
    forall l | l in gap + ([line] + rest) ensures OneLine(l) {
      if l !in gap && l != line { assert l in rest; }
    }
  }

  /** Parsing the text of a report gives the rings back. */
  lemma ParseReportText(r: Rings, gaps: seq<seq<string>>)
    requires ProperGaps(gaps) && InRange(r)
    ensures ParseRings(Report(r, gaps)) == Params(r)
  {
    ReportOneLine(r, gaps);
    ParseJoined(ReportLines(r, gaps));
    ParseReport(r, gaps);
  }

  lemma ParseJoined(lines: seq<string>)
    requires lines != [] && forall l :: l in lines ==> OneLine(l)
    ensures ParseRings(Join(lines, "\n")) == ParseLines(lines, NoSection, RingParams(0, 0, 0, 0))
  {
    forall i | 0 <= i < |lines| ensures Free(lines[i], Only('\n')) { assert OneLine(lines[i]); }
    SplitJoin(lines, '\n');
  }

  // ---- ring sizes

  /** The sizes `ethtool -G` is asked for, where one is needed. */
  datatype RingRequest = RingRequest(rx: Option<int>, tx: Option<int>)

  function Wanted(rp: RingParams): RingRequest {
    RingRequest(
      if rp.maxRX > 0 && rp.curRX < rp.maxRX then Some(rp.maxRX) else None,
      if rp.maxTX > 0 && rp.curTX < rp.maxTX then Some(rp.maxTX) else None)
  }

  const NO_REQUEST := RingRequest(None, None)

  /** The interface: its rings, how its driver lays out the report, whether ethtool can query and set, its queues. */
  datatype NicHost = NicHost(
    rings: Rings, gaps: seq<seq<string>>, canQuery: bool, canSet: bool, rx: seq<QueueFile>, tx: seq<QueueFile>)

  ghost predicate ValidNic(h: NicHost) { ProperGaps(h.gaps) && InRange(h.rings) }

  function RingDrift(h: NicHost): RingRequest
    requires |h.gaps| == 7
  {
    if h.canQuery then Wanted(ParseRings(Report(h.rings, h.gaps))) else NO_REQUEST
  }

  function SetRings(r: Rings, q: RingRequest): Rings
    requires (q.rx.Some? ==> q.rx.value >= 0) && (q.tx.Some? ==> q.tx.value >= 0)
  {
    r.(curRX := if q.rx.Some? then Some(q.rx.value) else r.curRX, curTX := if q.tx.Some? then Some(q.tx.value) else r.curTX)
  }

  function ApplyRings(h: NicHost): Applied<NicHost>
    requires |h.gaps| == 7
  {
    var q := RingDrift(h);
    if q == NO_REQUEST then Applied(h, true)
    else if !h.canSet then Applied(h, false)
    else Applied(h.(rings := SetRings(h.rings, q)), true)
  }

  method ApplyRingBufferMax(node: Node<NicHost>) returns (ok: bool, issued: RingRequest)
    requires |node.host.gaps| == 7
    modifies node
    ensures Applied(node.host, ok) == ApplyRings(old(node.host)) && issued == RingDrift(old(node.host))
  {
    if !node.host.canQuery { return true, NO_REQUEST; }
    var rp := ParseEthtoolRingParams(Report(node.host.rings, node.host.gaps));
    issued := NO_REQUEST;
    if rp.maxRX > 0 && rp.curRX < rp.maxRX { issued := issued.(rx := Some(rp.maxRX)); }
    if rp.maxTX > 0 && rp.curTX < rp.maxTX { issued := issued.(tx := Some(rp.maxTX)); }
    if issued == NO_REQUEST { return true, issued; }
    if !node.host.canSet { return false, issued; }
    node.host := node.host.(rings := SetRings(node.host.rings, issued));
    ok := true;
  }

  /** Rings: requests are exactly the advertised maximum of a ring below it; a successful step leaves no drift,
      lowers nothing, stays within the maximum, and is not repeated. */
  lemma RingsConverge(h: NicHost)
    requires ValidNic(h) && ApplyRings(h).ok
    ensures var h' := ApplyRings(h).state; var q := RingDrift(h);
      && ValidNic(h') && h' == h.(rings := h'.rings) && RingDrift(h') == NO_REQUEST
      && OrZero(h'.rings.curRX) >= OrZero(h.rings.curRX) && OrZero(h'.rings.curTX) >= OrZero(h.rings.curTX)
      && (q.rx.Some? ==> Some(q.rx.value) == h.rings.maxRX) && (q.tx.Some? ==> Some(q.tx.value) == h.rings.maxTX)
      && (h.canQuery && h.rings.maxRX.Some? ==> OrZero(h'.rings.curRX) >= h.rings.maxRX.value)
      && (h.canQuery && h.rings.maxTX.Some? ==> OrZero(h'.rings.curTX) >= h.rings.maxTX.value)
      && h'.rings.maxRX == h.rings.maxRX && h'.rings.maxTX == h.rings.maxTX
  {
    ParseReportText(h.rings, h.gaps);
    if h.canQuery {
      var h' := ApplyRings(h).state;
      ParseReportText(h'.rings, h'.gaps);
    }
  }

  // ---- queue masks

  /** A queue's steering file: absent, or with some text, perhaps unreadable or unwritable. */
  datatype QueueFile = Missing | File(text: string, readable: bool, writable: bool) {
    predicate Readable() { File? && readable }
  }

  predicate MaskDrifted(f: QueueFile, want: string) { f.Readable() && ParseBits(f.text) != ParseBits(want) }

  /** What Apply does to one queue: None when the write fails. */
  function WriteMask(f: QueueFile, want: string, echoed: string): Option<QueueFile> {
    if f.Readable() && ParseBits(f.text) == ParseBits(want) then Some(f)
    else if f.Missing? then Some(f)
    else if !f.writable then None
    else Some(f.(text := echoed))
  }

  /** The queues after the sweep, up to the first failing write. */
  function ApplyMasks(files: seq<QueueFile>, i: nat, want: string, echo: (nat, string) -> string): (seq<QueueFile>, bool)
    requires i <= |files|
    decreases |files| - i
  {
    if i == |files| then (files, true)
    else
      match WriteMask(files[i], want, echo(i, want))
      case None => (files, false)
      case Some(f) => ApplyMasks(files[i := f], i + 1, want, echo)
  }

  /** Which queues have drifted. */
  function DriftFlags(files: seq<QueueFile>, want: string): (flags: seq<bool>)
    ensures |flags| == |files|
  {
    seq(|files|, i requires 0 <= i < |files| => MaskDrifted(files[i], want))
  }

  /** The positions of the flags that are set, ascending. */
  function SetPositions(flags: seq<bool>): seq<nat> {
    if flags == [] then []
    else
      var last := |flags| - 1;
      SetPositions(flags[..last]) + (if flags[last] then [last] else [])
  }

  lemma {:induction false} SetPositionsAre(flags: seq<bool>)
    ensures forall i: nat :: i in SetPositions(flags) <==> i < |flags| && flags[i]
  {
    if flags != [] { SetPositionsAre(flags[..|flags| - 1]); }
  }

  method QueueMaskDrift(files: seq<QueueFile>, numCPUs: int) returns (drifted: seq<nat>)
    ensures forall i: nat :: i in drifted <==> i < |files| && MaskDrifted(files[i], MaskAll(numCPUs))
  {
    var want := CpumaskAll(numCPUs);
    drifted := CollectDrifted(files, want, DriftFlags(files, want));
    SetPositionsAre(DriftFlags(files, want));
  }

  method CollectDrifted(files: seq<QueueFile>, want: string, ghost flags: seq<bool>) returns (drifted: seq<nat>)
    requires flags == DriftFlags(files, want)
    ensures drifted == SetPositions(flags)
  {
    drifted := [];
    for i := 0 to |files|
      invariant drifted == SetPositions(flags[..i])
    {
      var differs := HasDrifted(files, want, i, flags);
      assert flags[..i + 1][..i] == flags[..i];
      if differs { drifted := drifted + [i]; }
    }
    assert flags[..|files|] == flags;
  }

  method HasDrifted(files: seq<QueueFile>, want: string, i: nat, ghost flags: seq<bool>) returns (drifted: bool)
    requires i < |files| && flags == DriftFlags(files, want)
    ensures drifted == flags[i]
  {
    drifted := HasOtherMask(files[i], want);
  }

  method HasOtherMask(f: QueueFile, want: string) returns (drifted: bool)
    ensures drifted == MaskDrifted(f, want)
  {
    if !f.Readable() { return false; }
    var equal := CPUMasksEqual(f.text, want);
    EqualBitsIffSameCPUs(f.text, want);
    drifted := !equal;
  }

  method ApplyQueueMask(files: seq<QueueFile>, numCPUs: int, echo: (nat, string) -> string) returns (files': seq<QueueFile>, ok: bool)
    ensures (files', ok) == ApplyMasks(files, 0, MaskAll(numCPUs), echo)
  {
    var want := CpumaskAll(numCPUs);
    files' := files;
    for i := 0 to |files|
      invariant |files'| == |files|
      invariant ApplyMasks(files', i, want, echo) == ApplyMasks(files, 0, want, echo)
    {
      var f := files'[i];
      var done := HasMask(f, want);
      if done || f.Missing? {
        assert files'[i := f] == files';
        continue;
      }
      if !f.writable { return files', false; }
      files' := files'[i := f.(text := echo(i, want))];
    }
    ok := true;
  }

  method HasMask(f: QueueFile, want: string) returns (same: bool)
    ensures same <==> f.Readable() && ParseBits(f.text) == ParseBits(want)
  {
    if !f.Readable() { return false; }
    same := CPUMasksEqual(f.text, want);
    EqualBitsIffSameCPUs(f.text, want);
  }

  /** What the kernel reads back for a mask that was written names the same CPUs. */
  ghost predicate EchoKeeps(echo: (nat, string) -> string) {
    forall i: nat, n: int :: SameCPUs(echo(i, MaskAll(n)), MaskAll(n))
  }

  /** It reads back with its own number of words and its own number of digits in each, and a newline. */
  ghost predicate EchoRenders(echo: (nat, string) -> string) {
    forall i: nat, n: int :: exists widths ::
      Wide(AtLeastOne(n), widths) && echo(i, MaskAll(n)) == Join(Rendered(AtLeastOne(n), widths), ",") + "\n"
  }

  /** So zero words in front, and leading zeros added to or dropped from a word, keep the CPUs. */
  lemma RenderingEchoKeeps(echo: (nat, string) -> string)
    requires EchoRenders(echo)
    ensures EchoKeeps(echo)
  {
    forall i: nat, n: int ensures SameCPUs(echo(i, MaskAll(n)), MaskAll(n)) {
      var widths :| Wide(AtLeastOne(n), widths) && echo(i, MaskAll(n)) == Join(Rendered(AtLeastOne(n), widths), ",") + "\n";
      forall c: nat ensures InMask(echo(i, MaskAll(n)), c) <==> InMask(MaskAll(n), c) {
        NewlineBit(Join(Rendered(AtLeastOne(n), widths), ","), c);
        RenderedDenotes(AtLeastOne(n), widths, c);
        MaskAllDenotes(n, c);
      }
    }
  }

  /** Four CPUs may read back as one digit, or as two words of eight. */
  lemma FourCPUs()
    ensures Wide(4, [1]) && Join(Rendered(4, [1]), ",") == "f" && Wide(4, [8, 8])
  {
    FourCPUValues();
    EightDigits();
    assert Pow16(1) == 16;
    assert Hex(15, 1) == Hex(0, 0) + [HexDigit(15)] == "f";
    assert Rendered(4, [1]) == [Hex(15, 1)];
  }

  lemma FourCPUValues()
    ensures MaskValue(4, 0) == 15 && MaskValue(4, 1) == 0
  {
    assert Pow2(4) == 16;
  }

  lemma EchoNamesSameCPUs(echo: (nat, string) -> string, i: nat, n: int)
    requires EchoKeeps(echo)
    ensures ParseBits(echo(i, MaskAll(n))) == ParseBits(MaskAll(n))
  {
    EqualBitsIffSameCPUs(echo(i, MaskAll(n)), MaskAll(n));
  }

  /** A sweep completes exactly when every queue can be left alone or written. */
  lemma {:induction false} MasksSucceedIff(files: seq<QueueFile>, i: nat, want: string, echo: (nat, string) -> string)
    requires i <= |files|
    ensures ApplyMasks(files, i, want, echo).1 <==> forall j: nat :: i <= j < |files| ==> WriteMask(files[j], want, echo(j, want)).Some?
    decreases |files| - i
  {
    if i < |files| {
      var written := WriteMask(files[i], want, echo(i, want));
      if written.Some? {
        var next := files[i := written.value];
        MasksSucceedIff(next, i + 1, want, echo);
        forall j: nat | i < j < |files| ensures next[j] == files[j] {}
      }
    }
  }

  /** A completed sweep treats every queue on its own. */
  lemma {:induction false} MasksPointwise(files: seq<QueueFile>, i: nat, want: string, echo: (nat, string) -> string)
    requires i <= |files| && ApplyMasks(files, i, want, echo).1
    ensures var files' := ApplyMasks(files, i, want, echo).0;
      && |files'| == |files|
      && (forall j :: 0 <= j < i ==> files'[j] == files[j])
      && (forall j: nat :: i <= j < |files| ==> WriteMask(files[j], want, echo(j, want)) == Some(files'[j]))
    decreases |files| - i
  {
    if i < |files| {
      var next := files[i := WriteMask(files[i], want, echo(i, want)).value];
      MasksPointwise(next, i + 1, want, echo);
      forall j: nat | i < j < |files| ensures next[j] == files[j] {}
    }
  }

  /** Queues: after a successful sweep every readable queue steers to exactly CPUs 0 to n - 1, absent ones stay
      absent, and no queue that was right already is written; so a second sweep rewrites no readable queue. */
  lemma MasksConverge(files: seq<QueueFile>, n: int, echo: (nat, string) -> string)
    requires EchoKeeps(echo) && ApplyMasks(files, 0, MaskAll(n), echo).1
    ensures var files' := ApplyMasks(files, 0, MaskAll(n), echo).0;
      && |files'| == |files|
      && (forall j: nat :: j < |files| ==> !MaskDrifted(files'[j], MaskAll(n)) && (files'[j].Readable() <==> files[j].Readable()))
      && (forall j: nat, c: nat :: j < |files| && files'[j].Readable() ==> (InMask(files'[j].text, c) <==> c < AtLeastOne(n)))
      && (forall j: nat :: j < |files| && files[j].Missing? ==> files'[j].Missing?)
      && (forall j: nat :: j < |files| && files[j].Readable() && !MaskDrifted(files[j], MaskAll(n)) ==> files'[j] == files[j])
  {
    var files', want := ApplyMasks(files, 0, MaskAll(n), echo).0, MaskAll(n);
    MasksPointwise(files, 0, want, echo);
    forall j: nat | j < |files| ensures !MaskDrifted(files'[j], want) && (files'[j].Readable() <==> files[j].Readable()) {
      EchoNamesSameCPUs(echo, j, n);
      assert WriteMask(files[j], want, echo(j, want)) == Some(files'[j]);
    }
    forall j: nat, c: nat | j < |files| && files'[j].Readable() ensures InMask(files'[j].text, c) <==> c < AtLeastOne(n) {
      EqualBitsIffSameCPUs(files'[j].text, want);
      assert SameCPUs(files'[j].text, want);
      MaskAllDenotes(n, c);
    }
    forall j: nat | j < |files| ensures files[j].Missing? ==> files'[j].Missing? {
      assert WriteMask(files[j], want, echo(j, want)) == Some(files'[j]);
    }
    forall j: nat | j < |files| && files[j].Readable() && !MaskDrifted(files[j], want) ensures files'[j] == files[j] {
      assert WriteMask(files[j], want, echo(j, want)) == Some(files'[j]);
    }
  }

  lemma QueueSettles(f: QueueFile, want: string, echoed: string)
    requires WriteMask(f, want, echoed).Some? && ParseBits(echoed) == ParseBits(want)
    ensures WriteMask(WriteMask(f, want, echoed).value, want, echoed) == WriteMask(f, want, echoed)
  {}

  /** A completed sweep is followed by one that completes too and leaves every queue as it is. */
  lemma SecondSweepIsQuiet(files: seq<QueueFile>, n: int, echo: (nat, string) -> string)
    requires EchoKeeps(echo) && ApplyMasks(files, 0, MaskAll(n), echo).1
    ensures var once := ApplyMasks(files, 0, MaskAll(n), echo).0;
      ApplyMasks(once, 0, MaskAll(n), echo) == (once, true)
  {
    var want := MaskAll(n);
    var once := ApplyMasks(files, 0, want, echo).0;
    MasksPointwise(files, 0, want, echo);
    forall j: nat | j < |once| ensures WriteMask(once[j], want, echo(j, want)) == Some(once[j]) {
      EchoNamesSameCPUs(echo, j, n);
      assert WriteMask(files[j], want, echo(j, want)) == Some(once[j]);
      QueueSettles(files[j], want, echo(j, want));
    }
    MasksSucceedIff(once, 0, want, echo);
    MasksPointwise(once, 0, want, echo);
    var twice := ApplyMasks(once, 0, want, echo).0;
    assert twice == once by {
      forall j: nat | j < |once| ensures twice[j] == once[j] { assert WriteMask(once[j], want, echo(j, want)) == Some(twice[j]); }
    }
  }

  // ---- what rings and masks come to

  /** A ring is below the maximum the driver advertises for it. */
  predicate Short(cur: Option<nat>, max: Option<nat>) { max.Some? && OrZero(cur) < max.value }

  /** `ethtool -G` is asked for the maximum of a ring exactly when the ring is short. */
  lemma RingRequestIff(h: NicHost)
    requires ValidNic(h)
    ensures RingDrift(h).rx == if h.canQuery && Short(h.rings.curRX, h.rings.maxRX) then Some(h.rings.maxRX.value) else None
    ensures RingDrift(h).tx == if h.canQuery && Short(h.rings.curTX, h.rings.maxTX) then Some(h.rings.maxTX.value) else None
  {
    ParseReportText(h.rings, h.gaps);
  }

  /** A ring that is short gets its maximum, another keeps its size. */
  lemma RingsSet(h: NicHost)
    requires ValidNic(h) && ApplyRings(h).ok
    ensures var r := ApplyRings(h).state.rings;
      && r.curRX == (if h.canQuery && Short(h.rings.curRX, h.rings.maxRX) then h.rings.maxRX else h.rings.curRX)
      && r.curTX == (if h.canQuery && Short(h.rings.curTX, h.rings.maxTX) then h.rings.maxTX else h.rings.curTX)
      && r.maxRX == h.rings.maxRX && r.maxTX == h.rings.maxTX
  {
    RingRequestIff(h);
  }

  lemma RingsSucceedIff(h: NicHost)
    requires ValidNic(h)
    ensures ApplyRings(h).ok <==> !h.canQuery || h.canSet || (!Short(h.rings.curRX, h.rings.maxRX) && !Short(h.rings.curTX, h.rings.maxTX))
  {
    RingRequestIff(h);
  }

  /** Every queue that can be read names exactly the CPUs below `n`. */
  ghost predicate AllSteer(files: seq<QueueFile>, n: int) {
    forall j: nat, c: nat :: j < |files| && files[j].File? && files[j].readable ==> (InMask(files[j].text, c) <==> c < n)
  }

  lemma SteersIff(f: QueueFile, n: int)
    requires n > 1 && f.Readable()
    ensures MaskDrifted(f, MaskAll(n)) <==> exists c: nat :: !(InMask(f.text, c) <==> c < n)
  {
    EqualBitsIffSameCPUs(f.text, MaskAll(n));
    forall c: nat ensures InMask(MaskAll(n), c) <==> c < n { MaskAllDenotes(n, c); }
  }

  lemma AllSteerIff(files: seq<QueueFile>, n: int)
    requires n > 1
    ensures AllSteer(files, n) <==> forall j: nat :: j < |files| ==> !MaskDrifted(files[j], MaskAll(n))
  {
    forall j: nat | j < |files| && files[j].Readable() ensures MaskDrifted(files[j], MaskAll(n)) <==> exists c: nat :: !(InMask(files[j].text, c) <==> c < n) {
      SteersIff(files[j], n);
    }
  }

  /** A completed sweep leaves absent queues and readable ones that were right, and writes all the others. */
  lemma SweepExact(files: seq<QueueFile>, n: int, echo: (nat, string) -> string, j: nat)
    requires ApplyMasks(files, 0, MaskAll(n), echo).1 && j < |files|
    ensures |ApplyMasks(files, 0, MaskAll(n), echo).0| == |files|
    ensures var f, f' := files[j], ApplyMasks(files, 0, MaskAll(n), echo).0[j];
      if f.Missing? || (f.readable && SameCPUs(f.text, MaskAll(n))) then f' == f
      else f.writable && f' == f.(text := echo(j, MaskAll(n)))
  {
    MasksPointwise(files, 0, MaskAll(n), echo);
    assert WriteMask(files[j], MaskAll(n), echo(j, MaskAll(n))) == Some(ApplyMasks(files, 0, MaskAll(n), echo).0[j]);
    if files[j].File? { EqualBitsIffSameCPUs(files[j].text, MaskAll(n)); }
  }

  // ---- the resource

  datatype NICResource = NICResource(iface: string, numCPUs: int, ringBufferMax: bool, rps: bool, xps: bool) {

    predicate QueuesDrifted(files: seq<QueueFile>) { exists j: nat :: j < |files| && MaskDrifted(files[j], MaskAll(numCPUs)) }

    function Check(h: NicHost): Checked
      requires |h.gaps| == 7
    {
      if iface == "" then Checked(Skipped, false)
      else if (ringBufferMax && RingDrift(h) != NO_REQUEST)
           || (rps && numCPUs > 1 && QueuesDrifted(h.rx)) || (xps && numCPUs > 1 && QueuesDrifted(h.tx))
      then Checked(WouldChange, false)
      else Checked(Unchanged, false)
    }

    /** What is asked for is in place: no ring the driver can report on is short, and the readable queues of each kind
        name exactly the node's CPUs, if there is more than one. */
    ghost predicate InPlace(h: NicHost) {
      && (ringBufferMax && h.canQuery ==> !Short(h.rings.curRX, h.rings.maxRX) && !Short(h.rings.curTX, h.rings.maxTX))
      && (rps && numCPUs > 1 ==> AllSteer(h.rx, numCPUs))
      && (xps && numCPUs > 1 ==> AllSteer(h.tx, numCPUs))
    }

    lemma CheckIff(h: NicHost)
      requires ValidNic(h)
      ensures Check(h) == Checked(Skipped, false) <==> iface == ""
      ensures Check(h) == Checked(Unchanged, false) <==> iface != "" && InPlace(h)
      ensures Check(h) == Checked(WouldChange, false) <==> iface != "" && !InPlace(h)
    {
      RingRequestIff(h);
      if numCPUs > 1 {
        AllSteerIff(h.rx, numCPUs);
        AllSteerIff(h.tx, numCPUs);
      }
    }

    /** Apply leaves alone what is not asked for. */
    lemma ApplyLeaves(h: NicHost, echo: (nat, string) -> string)
      requires |h.gaps| == 7
      ensures var h' := Apply(h, echo).state;
        && h' == h.(rings := h'.rings, rx := h'.rx, tx := h'.tx)
        && (iface == "" || !ringBufferMax ==> h'.rings == h.rings)
        && (iface == "" || !rps || numCPUs <= 1 ==> h'.rx == h.rx)
        && (iface == "" || !xps || numCPUs <= 1 ==> h'.tx == h.tx)
    {}

    function Apply(h: NicHost, echo: (nat, string) -> string): (a: Applied<NicHost>)
      requires |h.gaps| == 7
    {
      if iface == "" then Applied(h, true)
      else
        var r := if ringBufferMax then ApplyRings(h) else Applied(h, true);
        if !r.ok then r
        else
          var (rx, rxOk) := if rps && numCPUs > 1 then ApplyMasks(r.state.rx, 0, MaskAll(numCPUs), echo) else (r.state.rx, true);
          if !rxOk then Applied(r.state.(rx := rx), false)
          else
            var (tx, txOk) := if xps && numCPUs > 1 then ApplyMasks(r.state.tx, 0, MaskAll(numCPUs), echo) else (r.state.tx, true);
            Applied(r.state.(rx := rx, tx := tx), txOk)
    }

    method CheckNode(node: Node<NicHost>) returns (res: Checked)
      requires |node.host.gaps| == 7
      ensures res == Check(node.host)
    {
      if iface == "" { return Checked(Skipped, false); }
      var drift := false;
      if ringBufferMax && RingDrift(node.host) != NO_REQUEST { drift := true; }
      if rps && numCPUs > 1 {
        var queues := QueueMaskDrift(node.host.rx, numCPUs);
        assert queues != [] <==> QueuesDrifted(node.host.rx) by { if queues != [] { assert queues[0] in queues; } }
        if |queues| > 0 { drift := true; }
      }
      if xps && numCPUs > 1 {
        var queues := QueueMaskDrift(node.host.tx, numCPUs);
        assert queues != [] <==> QueuesDrifted(node.host.tx) by { if queues != [] { assert queues[0] in queues; } }
        if |queues| > 0 { drift := true; }
      }
      res := Checked(if drift then WouldChange else Unchanged, false);
    }

    method ApplyNode(node: Node<NicHost>, echo: (nat, string) -> string) returns (ok: bool)
      requires |node.host.gaps| == 7
      modifies node
      ensures Applied(node.host, ok) == Apply(old(node.host), echo)
    {
      if iface == "" { return true; }
      if ringBufferMax {
        var done, _ := ApplyRingBufferMax(node);
        if !done { return false; }
      }
      if rps && numCPUs > 1 {
        var files, done := ApplyQueueMask(node.host.rx, numCPUs, echo);
        node.host := node.host.(rx := files);
        if !done { return false; }
      }
      if xps && numCPUs > 1 {
        var files, done := ApplyQueueMask(node.host.tx, numCPUs, echo);
        node.host := node.host.(tx := files);
        if !done { return false; }
      }
      ok := true;
    }

    /** Whatever the outcome, the report stays one a driver could print. */
    lemma ApplyKeepsValid(h: NicHost, echo: (nat, string) -> string)
      requires ValidNic(h)
      ensures ValidNic(Apply(h, echo).state)
    {
      if iface != "" && ringBufferMax && ApplyRings(h).ok { RingsConverge(h); }
    }

    /** A successful Apply leaves neither ring nor readable-queue drift. */
    lemma ApplyConverges(h: NicHost, echo: (nat, string) -> string)
      requires ValidNic(h) && EchoKeeps(echo) && Apply(h, echo).ok
      ensures var h' := Apply(h, echo).state;
        && |h'.gaps| == 7 && Check(h').status in {Unchanged, Skipped} && !Check(h').err
        && (ringBufferMax && iface != "" ==> RingDrift(h') == NO_REQUEST)
    {
      if iface != "" {
        if ringBufferMax { RingsConverge(h); }
        if rps && numCPUs > 1 { MasksConverge(h.rx, numCPUs, echo); }
        if xps && numCPUs > 1 { MasksConverge(h.tx, numCPUs, echo); }
      }
    }
  }
}
