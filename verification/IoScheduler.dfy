/** The io-scheduler resource: the kernel's bracketed list of schedulers, read and switched. */
module IoScheduler {
  import opened Text
  import opened Engine
  import Sequences

  predicate Bracket(c: char) { c == '[' || c == ']' }

  function TrimBracketsLeft(s: string): string {
    if s != "" && Bracket(s[0]) then TrimBracketsLeft(s[1..]) else s
  }

  function TrimBracketsRight(s: string): string {
    if s != "" && Bracket(s[|s| - 1]) then TrimBracketsRight(s[..|s| - 1]) else s
  }

  /** `strings.Trim(s, "[]")`. */
  function TrimBrackets(s: string): string { TrimBracketsRight(TrimBracketsLeft(s)) }

  predicate IsActive(field: string) { HasPrefix(field, "[") && HasSuffix(field, "]") }

  /** The last bracketed name, or `current` when there is none. */
  function CurrentOf(fields: seq<string>, current: string): string {
    if fields == [] then current
    else CurrentOf(fields[1..], if IsActive(fields[0]) then TrimBrackets(fields[0]) else current)
  }

  function AvailableOf(fields: seq<string>): seq<string> {
    if fields == [] then []
    else [if IsActive(fields[0]) then TrimBrackets(fields[0]) else fields[0]] + AvailableOf(fields[1..])
  }

  /** `readScheduler` on the text of the file: the active scheduler and all that are offered. */
  function Parse(raw: string): (string, seq<string>) {
    var fields := Fields(TrimSpace(raw));
    (CurrentOf(fields, ""), AvailableOf(fields))
  }

  method ReadScheduler(raw: string) returns (current: string, available: seq<string>)
    ensures (current, available) == Parse(raw)
  {
    current, available := ScanFields(Fields(TrimSpace(raw)));
  }

  method ScanFields(fields: seq<string>) returns (current: string, available: seq<string>)
    ensures current == CurrentOf(fields, "") && available == AvailableOf(fields)
  {
    current, available := "", [];
    for i := 0 to |fields|
      invariant CurrentOf(fields[i..], current) == CurrentOf(fields, "")
      invariant available + AvailableOf(fields[i..]) == AvailableOf(fields)
    {
      var field := fields[i];
      assert fields[i..][0] == field && fields[i..][1..] == fields[i + 1..];
      var name := field;
      if HasPrefix(field, "[") && HasSuffix(field, "]") {
        name := TrimBrackets(field);
        current := name;
      }
      Sequences.Associate(available, [name], AvailableOf(fields[i + 1..]));
      available := available + [name];
    }
  }

  // ---- the kernel's side

  /** The schedulers a device offers, and which one is active. */
  datatype Queue = Queue(names: seq<string>, active: nat)

  predicate SchedulerName(s: string) { Word(s) && forall i :: 0 <= i < |s| ==> !Bracket(s[i]) }

  predicate ValidQueue(q: Queue) { q.active < |q.names| && forall n :: n in q.names ==> SchedulerName(n) }

  function Shown(q: Queue, i: nat): string
    requires i < |q.names|
  {
    if i == q.active then "[" + q.names[i] + "]" else q.names[i]
  }

  function ShownAll(q: Queue): (r: seq<string>)
    ensures |r| == |q.names| && forall i :: 0 <= i < |r| ==> r[i] == Shown(q, i)
  {
    seq(|q.names|, i requires 0 <= i < |q.names| => Shown(q, i))
  }

  /** What reading the scheduler file gives: all names, the active one in brackets. */
  function Render(q: Queue): string { Join(ShownAll(q), " ") + "\n" }

  function IndexOf(names: seq<string>, name: string): (i: nat)
    requires name in names
    ensures i < |names| && names[i] == name
  {
    if names[0] == name then 0 else 1 + IndexOf(names[1..], name)
  }

  lemma BracketedName(n: string)
    requires SchedulerName(n)
    ensures Word("[" + n + "]") && IsActive("[" + n + "]") && TrimBrackets("[" + n + "]") == n && !IsActive(n)
  {
    var b := "[" + n + "]";
    assert b[1..] == n + "]";
    assert (n + "]")[0] == n[0];
    assert TrimBracketsLeft(b) == n + "]";
    assert (n + "]")[|n|] == ']' && (n + "]")[..|n|] == n;
    assert TrimBracketsRight(n + "]") == TrimBracketsRight(n);
  }

  lemma {:induction false} ParsedNames(shown: seq<string>, names: seq<string>, active: int, current: string)
    requires |shown| == |names| && forall n :: n in names ==> SchedulerName(n)
    requires forall i :: 0 <= i < |names| ==> shown[i] == if i == active then "[" + names[i] + "]" else names[i]
    ensures AvailableOf(shown) == names
    ensures CurrentOf(shown, current) == if 0 <= active < |names| then names[active] else current
  {
    if names != [] {
      assert names[0] in names;
      BracketedName(names[0]);
      var next := if active == 0 then names[0] else current;
      ParsedNames(shown[1..], names[1..], active - 1, next);
    }
  }

  lemma ShownFields(q: Queue)
    requires ValidQueue(q)
    ensures Fields(TrimSpace(Render(q))) == ShownAll(q)
  {
    var shown := ShownAll(q);
    forall w | w in shown ensures Word(w) {
      var i :| 0 <= i < |shown| && shown[i] == w;
      assert q.names[i] in q.names;
      BracketedName(q.names[i]);
    }
    FieldsJoin(shown);
    FieldsConcat(Join(shown, " "), '\n', "");
    assert Fields("") == [];
    assert Render(q) == Join(shown, " ") + ['\n'] + "";
    FieldsTrim(Render(q));
  }

  /** Reading inverts the kernel's rendering. */
  lemma ParseRender(q: Queue)
    requires ValidQueue(q)
    ensures Parse(Render(q)) == (q.names[q.active], q.names)
  {
    ShownFields(q);
    ParsedNames(ShownAll(q), q.names, q.active, "");
  }

  // ---- Check and Apply

  /** The NVMe devices listed, in directory order, and their queues; some files fail to read or to write. */
  datatype BlockHost = BlockHost(
    devices: seq<string>, queues: map<string, Queue>, unreadable: set<string>, unwritable: set<string>)

  predicate ValidHost(h: BlockHost) { forall d :: d in h.queues ==> ValidQueue(h.queues[d]) }

  predicate Readable(h: BlockHost, d: string) { d in h.queues && d !in h.unreadable }

  /** The device reads, offers the scheduler, and runs another one. */
  predicate Drifted(h: BlockHost, d: string, scheduler: string) {
    && Readable(h, d)
    && var (current, available) := Parse(Render(h.queues[d]));
    current != scheduler && scheduler in available
  }

  function Check(h: BlockHost, scheduler: string): Checked {
    if scheduler == "" || h.devices == [] then Checked(Skipped, false)
    else if exists d :: d in h.devices && Drifted(h, d, scheduler) then Checked(WouldChange, false)
    else Checked(Unchanged, false)
  }

  method CheckNode(node: Node<BlockHost>, scheduler: string) returns (res: Checked)
    ensures res == Check(node.host, scheduler)
  {
    if scheduler == "" { return Checked(Skipped, false); }
    var devices := node.host.devices;
    if |devices| == 0 { return Checked(Skipped, false); }
    var drift := 0;
    for i := 0 to |devices|
      invariant drift >= 0
      invariant drift > 0 <==> exists j :: 0 <= j < i && Drifted(node.host, devices[j], scheduler)
    {
      var drifted := HasDrifted(node.host, devices[i], scheduler);
      if drifted { drift := drift + 1; }
    }
    if drift == 0 { return Checked(Unchanged, false); }
    res := Checked(WouldChange, false);
  }

  method HasDrifted(h: BlockHost, d: string, scheduler: string) returns (drifted: bool)
    ensures drifted == Drifted(h, d, scheduler)
  {
    if !Readable(h, d) { return false; }
    var current, available := ReadScheduler(Render(h.queues[d]));
    drifted := current != scheduler && scheduler in available;
  }

  /** Writing a name to the file: the kernel activates it if it offers it, and refuses otherwise. */
  function WriteScheduler(h: BlockHost, d: string, scheduler: string): Applied<BlockHost> {
    if d in h.unwritable || d !in h.queues || scheduler !in h.queues[d].names then Applied(h, false)
    else
      var q := h.queues[d];
      Applied(h.(queues := h.queues[d := q.(active := IndexOf(q.names, scheduler))]), true)
  }

  function ApplyFrom(devices: seq<string>, h: BlockHost, scheduler: string): Applied<BlockHost>
    decreases |devices|
  {
    if devices == [] then Applied(h, true)
    else if !Drifted(h, devices[0], scheduler) then ApplyFrom(devices[1..], h, scheduler)
    else
      var written := WriteScheduler(h, devices[0], scheduler);
      if written.ok then ApplyFrom(devices[1..], written.state, scheduler) else written
  }

  function Apply(h: BlockHost, scheduler: string): Applied<BlockHost> {
    if scheduler == "" then Applied(h, true) else ApplyFrom(h.devices, h, scheduler)
  }

  method ApplyNode(node: Node<BlockHost>, scheduler: string) returns (ok: bool)
    modifies node
    ensures Applied(node.host, ok) == Apply(old(node.host), scheduler)
  {
    if scheduler == "" { return true; }
    var devices := node.host.devices;
    for i := 0 to |devices|
      invariant ApplyFrom(devices[i..], node.host, scheduler) == ApplyFrom(devices, old(node.host), scheduler)
    {
      var d := devices[i];
      assert devices[i..][0] == d && devices[i..][1..] == devices[i + 1..];
      var drifted := HasDrifted(node.host, d, scheduler);
      if !drifted { continue; }
      var written := WriteScheduler(node.host, d, scheduler);
      node.host := written.state;
      if !written.ok { return false; }
    }
    ok := true;
  }

  /** Among valid queues, drift is what it should be: offered but not active. */
  lemma DriftedIff(h: BlockHost, d: string, scheduler: string)
    requires ValidHost(h) && d in h.queues
    ensures Drifted(h, d, scheduler) <==>
      d !in h.unreadable && scheduler in h.queues[d].names && h.queues[d].names[h.queues[d].active] != scheduler
  {
    ParseRender(h.queues[d]);
  }

  /** Every listed device that can be read and offers the scheduler runs it. */
  ghost predicate AllRun(h: BlockHost, scheduler: string) {
    forall d :: d in h.devices && d in h.queues && d !in h.unreadable && scheduler in h.queues[d].names ==>
      h.queues[d].active < |h.queues[d].names| && h.queues[d].names[h.queues[d].active] == scheduler
  }

  lemma CheckIff(h: BlockHost, scheduler: string)
    requires ValidHost(h)
    ensures Check(h, scheduler) == Checked(Skipped, false) <==> scheduler == "" || h.devices == []
    ensures Check(h, scheduler) == Checked(WouldChange, false) <==> scheduler != "" && !AllRun(h, scheduler)
    ensures Check(h, scheduler) == Checked(Unchanged, false) <==> scheduler != "" && h.devices != [] && AllRun(h, scheduler)
  {
    forall d | d in h.devices ensures Drifted(h, d, scheduler) <==>
      d in h.queues && d !in h.unreadable && scheduler in h.queues[d].names && h.queues[d].names[h.queues[d].active] != scheduler
    {
      if d in h.queues { DriftedIff(h, d, scheduler); }
    }
    forall d | d in h.queues ensures h.queues[d].active < |h.queues[d].names| {}
  }

  predicate Runs(h: BlockHost, d: string, scheduler: string)
    requires d in h.queues
  {
    h.queues[d].active < |h.queues[d].names| && h.queues[d].names[h.queues[d].active] == scheduler
  }

  /** What a completed sweep has done to every device. */
  lemma {:induction false} SweepEffect(devices: seq<string>, h: BlockHost, scheduler: string)
    requires ValidHost(h) && ApplyFrom(devices, h, scheduler).ok
    ensures var h' := ApplyFrom(devices, h, scheduler).state;
      && ValidHost(h') && h' == h.(queues := h'.queues) && h'.queues.Keys == h.queues.Keys
      && (forall d :: d in h.queues ==> h'.queues[d] == h.queues[d] || (d in devices && Readable(h, d) && scheduler in h.queues[d].names && Runs(h', d, scheduler)))
      && (forall d :: d in h.queues ==> h'.queues[d].names == h.queues[d].names)
      && (forall d :: d in h.queues && Runs(h, d, scheduler) ==> h'.queues[d] == h.queues[d])
      && (forall d :: d in devices && Readable(h, d) && scheduler in h.queues[d].names ==> Runs(h', d, scheduler))
    decreases |devices|
  {
    if devices != [] {
      var d, rest := devices[0], devices[1..];
      assert forall x :: x in devices <==> x == d || x in rest;
      if d in h.queues { DriftedIff(h, d, scheduler); }
      if Drifted(h, d, scheduler) {
        SweepEffect(rest, WriteScheduler(h, d, scheduler).state, scheduler);
      } else {
        SweepEffect(rest, h, scheduler);
      }
    }
  }

  /** The sweep succeeds exactly when every listed device that has drifted can be written. */
  lemma {:induction false} SweepSucceedsIff(devices: seq<string>, h: BlockHost, scheduler: string)
    requires ValidHost(h)
    ensures ApplyFrom(devices, h, scheduler).ok <==> forall d :: d in devices && Drifted(h, d, scheduler) ==> d !in h.unwritable
    decreases |devices|
  {
    if devices != [] {
      var d, rest := devices[0], devices[1..];
      assert forall x :: x in devices <==> x == d || x in rest;
      if d in h.queues { DriftedIff(h, d, scheduler); }
      if !Drifted(h, d, scheduler) {
        SweepSucceedsIff(rest, h, scheduler);
      } else if d !in h.unwritable {
        var next := WriteScheduler(h, d, scheduler).state;
        SweepSucceedsIff(rest, next, scheduler);
        forall x | x in rest && x != d ensures Drifted(next, x, scheduler) <==> Drifted(h, x, scheduler) {}
        DriftedIff(next, d, scheduler);
      }
    }
  }

  /** Whatever the outcome, every queue stays one the kernel could render. */
  lemma {:induction false} ApplyKeepsValid(devices: seq<string>, h: BlockHost, scheduler: string)
    requires ValidHost(h)
    ensures ValidHost(ApplyFrom(devices, h, scheduler).state)
    decreases |devices|
  {
    if devices != [] {
      if Drifted(h, devices[0], scheduler) {
        var written := WriteScheduler(h, devices[0], scheduler);
        if written.ok { ApplyKeepsValid(devices[1..], written.state, scheduler); }
      } else {
        ApplyKeepsValid(devices[1..], h, scheduler);
      }
    }
  }

  /** After a successful Apply every readable listed device that offers the scheduler runs it, every other device and
      every one that ran it already is untouched, and Check finds no drift. */
  lemma ApplyConverges(h: BlockHost, scheduler: string)
    requires ValidHost(h) && scheduler != "" && Apply(h, scheduler).ok
    ensures var h' := Apply(h, scheduler).state;
      && h'.queues.Keys == h.queues.Keys
      && (forall d :: d in h.devices && Readable(h, d) && scheduler in h.queues[d].names ==> Runs(h', d, scheduler))
      && (forall d :: d in h.queues && (Runs(h, d, scheduler) || !(d in h.devices && Readable(h, d) && scheduler in h.queues[d].names)) ==> h'.queues[d] == h.queues[d])
      && Check(h', scheduler).status in {Unchanged, Skipped} && !Check(h', scheduler).err
  {
    var h' := Apply(h, scheduler).state;
    SweepEffect(h.devices, h, scheduler);
    forall d | d in h'.devices ensures !Drifted(h', d, scheduler) {
      if d in h'.queues { DriftedIff(h', d, scheduler); }
    }
  }
}
