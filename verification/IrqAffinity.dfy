/** The irq-affinity resource: spread a NIC's queue interrupts round-robin over the CPUs. */
module IrqAffinity {
  import opened Numbers
  import opened Text
  import opened Sorting
  import opened Engine

  // ---- reading /proc/interrupts

  function TrimColon(s: string): string { if HasSuffix(s, ":") then s[..|s| - 1] else s }

  /** The IRQ number of a line whose last field starts with `prefix`, if it has one. */
  function QueueIRQ(line: string, prefix: string): Option<int> {
    var fields := Fields(line);
    if fields == [] || !HasPrefix(fields[|fields| - 1], prefix) then None else Atoi(TrimColon(fields[0]))
  }

  function Contribution(line: string, prefix: string): seq<int> {
    match QueueIRQ(line, prefix)
    case Some(n) => [n]
    case None => []
  }

  function QueueIRQs(lines: seq<string>, prefix: string): seq<int> {
    if lines == [] then [] else Contribution(lines[0], prefix) + QueueIRQs(lines[1..], prefix)
  }

  function Printed(ns: seq<int>): (s: seq<string>)
    ensures |s| == |ns|
    ensures forall i :: 0 <= i < |ns| ==> s[i] == Itoa(ns[i])
  {
    seq(|ns|, i requires 0 <= i < |ns| => Itoa(ns[i]))
  }

  /** `enaIRQs`: the queue IRQs of an interface in ascending order. */
  function IRQsOf(interrupts: string, iface: string): seq<string> {
    Printed(Sort(IntLe, QueueIRQs(Split(interrupts, '\n'), iface + "-")))
  }

  method EnaIRQs(interrupts: string, iface: string) returns (irqs: seq<string>)
    ensures irqs == IRQsOf(interrupts, iface)
  {
    var lines, prefix := Split(interrupts, '\n'), iface + "-";
    var ns := CollectIRQs(lines, prefix);
    irqs := Printed(Sort(IntLe, ns));
  }

  method CollectIRQs(lines: seq<string>, prefix: string) returns (ns: seq<int>)
    ensures ns == QueueIRQs(lines, prefix)
  {
    ns := [];
    for i := 0 to |lines|
      invariant ns == QueueIRQs(lines[..i], prefix)
    {
      ns := AppendIRQ(ns, lines[i], prefix);
      QueueIRQsStep(lines, i, prefix);
    }
    assert lines[..|lines|] == lines;
  }

  lemma QueueIRQsStep(lines: seq<string>, i: nat, prefix: string)
    requires i < |lines|
    ensures QueueIRQs(lines[..i + 1], prefix) == QueueIRQs(lines[..i], prefix) + Contribution(lines[i], prefix)
  {
    assert lines[..i + 1] == lines[..i] + [lines[i]];
    QueueIRQsConcat(lines[..i], [lines[i]], prefix);
    assert [lines[i]][1..] == [];
  }

  method AppendIRQ(ns: seq<int>, line: string, prefix: string) returns (r: seq<int>)
    ensures r == ns + Contribution(line, prefix)
  {
    r := ns;
    var fields := Fields(line);
    if |fields| == 0 { return; }
    if !HasPrefix(fields[|fields| - 1], prefix) { return; }
    var n := Atoi(TrimColon(fields[0]));
    if n == None { return; }
    r := ns + [n.value];
  }

  lemma {:induction false} QueueIRQsConcat(a: seq<string>, b: seq<string>, prefix: string)
    ensures QueueIRQs(a + b, prefix) == QueueIRQs(a, prefix) + QueueIRQs(b, prefix)
  {
    if a == [] {
      assert a + b == b;
    } else {
      assert (a + b)[1..] == a[1..] + b;
      QueueIRQsConcat(a[1..], b, prefix);
    }
  }

  lemma QueueIRQsWithout(lines: seq<string>, j: nat, prefix: string)
    requires j < |lines|
    ensures multiset(QueueIRQs(lines, prefix))
      == multiset(Contribution(lines[j], prefix)) + multiset(QueueIRQs(lines[..j] + lines[j + 1..], prefix))
  {
    var own := [lines[j]] + lines[j + 1..];
    assert lines == lines[..j] + own && own[1..] == lines[j + 1..];
    QueueIRQsConcat(lines[..j], own, prefix);
    QueueIRQsConcat(lines[..j], lines[j + 1..], prefix);
  }

  lemma {:induction false} QueueIRQsPermute(a: seq<string>, b: seq<string>, prefix: string)
    requires multiset(a) == multiset(b)
    ensures multiset(QueueIRQs(a, prefix)) == multiset(QueueIRQs(b, prefix))
  {
    if a == [] {
      assert |multiset(b)| == 0;
    } else {
      assert a[0] in multiset(b);
      var j :| 0 <= j < |b| && b[j] == a[0];
      WithoutPermutes(a, b, j);
      QueueIRQsPermute(a[1..], b[..j] + b[j + 1..], prefix);
      QueueIRQsWithout(b, j, prefix);
    }
  }

  lemma WithoutPermutes(a: seq<string>, b: seq<string>, j: nat)
    requires multiset(a) == multiset(b) && a != [] && j < |b| && b[j] == a[0]
    ensures multiset(a[1..]) == multiset(b[..j] + b[j + 1..])
  {
    assert a == [a[0]] + a[1..];
    assert multiset(a[1..]) == multiset(a) - multiset{a[0]};
    assert b == b[..j] + [b[j]] + b[j + 1..];
    assert multiset(b) == multiset(b[..j]) + multiset{b[j]} + multiset(b[j + 1..]);
    assert multiset(b[..j] + b[j + 1..]) == multiset(b[..j]) + multiset(b[j + 1..]);
  }

  /** The order of the lines in the file does not matter. */
  lemma LineOrderIsIrrelevant(a: string, b: string, iface: string)
    requires multiset(Split(a, '\n')) == multiset(Split(b, '\n'))
    ensures IRQsOf(a, iface) == IRQsOf(b, iface)
  {
    var prefix := iface + "-";
    QueueIRQsPermute(Split(a, '\n'), Split(b, '\n'), prefix);
    IntOrder();
    SortIgnoresOrder(IntLe, QueueIRQs(Split(a, '\n'), prefix), QueueIRQs(Split(b, '\n'), prefix));
  }

  /** Said of the line: its last field is the interface's name, a dash and more, and its first, a colon after it or not,
      is the number. */
  ghost predicate NamesQueue(line: string, iface: string, n: int) {
    var fields := Fields(line);
    && fields != [] && iface + "-" <= fields[|fields| - 1]
    && exists digits :: (fields[0] == digits + ":" || (fields[0] == digits && !HasSuffix(digits, ":"))) && Atoi(digits) == Some(n)
  }

  lemma QueueIRQIff(line: string, iface: string, n: int)
    ensures QueueIRQ(line, iface + "-") == Some(n) <==> NamesQueue(line, iface, n)
  {
    var fields := Fields(line);
    if fields != [] && iface + "-" <= fields[|fields| - 1] {
      var first, trimmed := fields[0], TrimColon(fields[0]);
      assert first == trimmed + ":" || (first == trimmed && !HasSuffix(trimmed, ":")) by {
        if HasSuffix(first, ":") { assert first == first[..|first| - 1] + first[|first| - 1..]; }
      }
      forall digits | first == digits + ":" || (first == digits && !HasSuffix(digits, ":")) ensures digits == trimmed {
        if first == digits + ":" {
          assert first[|first| - 1..] == ":" && HasSuffix(first, ":");
          assert first[..|first| - 1] == digits;
        }
      }
    }
  }

  lemma {:induction false} QueueIRQsAre(lines: seq<string>, iface: string, n: int)
    ensures n in QueueIRQs(lines, iface + "-") <==> exists line :: line in lines && NamesQueue(line, iface, n)
  {
    if lines != [] {
      QueueIRQIff(lines[0], iface, n);
      QueueIRQsAre(lines[1..], iface, n);
      assert forall line :: line in lines <==> line == lines[0] || line in lines[1..];
    }
  }

  /** The list is ascending, as numbers, and holds exactly the numbers of the interface's queues. */
  lemma IRQsAre(interrupts: string, iface: string)
    ensures forall i, j :: 0 <= i < j < |IRQsOf(interrupts, iface)| ==>
      exists a, b :: a <= b && IRQsOf(interrupts, iface)[i] == Itoa(a) && IRQsOf(interrupts, iface)[j] == Itoa(b)
    ensures forall n: int :: Itoa(n) in IRQsOf(interrupts, iface) <==> exists line :: line in Split(interrupts, '\n') && NamesQueue(line, iface, n)
    ensures forall irq :: irq in IRQsOf(interrupts, iface) ==> exists n: int :: irq == Itoa(n)
  {
    var irqs, raw := IRQsOf(interrupts, iface), QueueIRQs(Split(interrupts, '\n'), iface + "-");
    var ns := Sort(IntLe, raw);
    SortInts(raw);
    assert irqs == Printed(ns);
    forall i, j | 0 <= i < j < |irqs|
      ensures exists a, b :: a <= b && irqs[i] == Itoa(a) && irqs[j] == Itoa(b)
    {
      assert ns[i] <= ns[j] && irqs[i] == Itoa(ns[i]) && irqs[j] == Itoa(ns[j]);
    }
    forall n: int ensures Itoa(n) in irqs <==> exists line :: line in Split(interrupts, '\n') && NamesQueue(line, iface, n) {
      QueueIRQsAre(Split(interrupts, '\n'), iface, n);
      if Itoa(n) in irqs {
        var i :| 0 <= i < |irqs| && irqs[i] == Itoa(n);
        ItoaInjective(n, ns[i]);
        assert ns[i] in ns;
      }
      if n in raw {
        assert n in ns;
        var i :| 0 <= i < |ns| && ns[i] == n;
        assert irqs[i] == Itoa(n);
      }
    }
  }

  // ---- the assignment

  /** Round-robin by position; a repeated IRQ keeps its last position. */
  function Desired(irqs: seq<string>, n: int): (want: map<string, int>)
    ensures forall irq :: irq in want <==> irq in irqs
  {
    if irqs == [] then map[]
    else
      var last := |irqs| - 1;
      Desired(irqs[..last], n)[irqs[last] := last % (if n <= 0 then 1 else n)]
  }

  method DesiredAffinity(irqs: seq<string>, numCPUs: int) returns (want: map<string, int>)
    ensures want == Desired(irqs, numCPUs)
  {
    var n := numCPUs;
    if n <= 0 { n := 1; }
    want := map[];
    for i := 0 to |irqs|
      invariant want == Desired(irqs[..i], numCPUs)
    {
      assert irqs[..i + 1][..i] == irqs[..i];
      want := want[irqs[i] := i % n];
    }
    assert irqs[..|irqs|] == irqs;
  }

  lemma {:induction false} DesiredAt(irqs: seq<string>, n: int, i: nat)
    requires Distinct(irqs) && i < |irqs| && n > 0
    ensures irqs[i] in Desired(irqs, n) && Desired(irqs, n)[irqs[i]] == i % n
  {
    var last := |irqs| - 1;
    if i < last {
      assert irqs[..last][i] == irqs[i];
      DesiredAt(irqs[..last], n, i);
    }
  }

  /** An IRQ goes to the CPU its last position gives it. */
  lemma {:induction false} DesiredLast(irqs: seq<string>, n: int, i: nat)
    requires i < |irqs| && n > 0 && forall j :: i < j < |irqs| ==> irqs[j] != irqs[i]
    ensures irqs[i] in Desired(irqs, n) && Desired(irqs, n)[irqs[i]] == i % n
  {
    var last := |irqs| - 1;
    if i < last {
      assert irqs[..last][i] == irqs[i];
      DesiredLast(irqs[..last], n, i);
    }
  }

  /** How many of the first `m` IRQs go to CPU `c`. */
  function LoadTo(irqs: seq<string>, want: map<string, int>, c: int, m: nat): nat
    requires m <= |irqs| && forall irq :: irq in irqs ==> irq in want
  {
    if m == 0 then 0 else LoadTo(irqs, want, c, m - 1) + (if want[irqs[m - 1]] == c then 1 else 0)
  }

  function Load(irqs: seq<string>, want: map<string, int>, c: int): nat
    requires forall irq :: irq in irqs ==> irq in want
  {
    LoadTo(irqs, want, c, |irqs|)
  }

  lemma ModStep(m: nat, n: nat)
    requires n > 0
    ensures (m + 1) % n == if m % n == n - 1 then 0 else m % n + 1
  {
    var q, r := m / n, m % n;
    var q', r' := (m + 1) / n, (m + 1) % n;
    if r == n - 1 { OneQuotient(n, q + 1, 0, q', r'); } else { OneQuotient(n, q, r + 1, q', r'); }
  }

  lemma OneQuotient(n: nat, q: int, r: int, q': int, r': int)
    requires 0 <= r < n && 0 <= r' < n && n * q + r == n * q' + r'
    ensures q == q' && r == r'
  {
    if q < q' { AtLeastOneMore(n, q, q'); }
    if q' < q { AtLeastOneMore(n, q', q); }
  }

  lemma {:induction false} AtLeastOneMore(n: nat, a: int, b: int)
    requires a < b
    ensures n * b >= n * a + n
    decreases b - a
  {
    if a + 1 < b { AtLeastOneMore(n, a, b - 1); }
    assert n * b == n * (b - 1) + n;
  }

  /** Whose turn it is after `m` turns round `n`. */
  function Turn(n: nat, m: nat): (t: nat)
    requires n > 0
    ensures t < n
  {
    if m == 0 then 0 else var before := Turn(n, m - 1); if before == n - 1 then 0 else before + 1
  }

  lemma {:induction false} TurnIsRemainder(n: nat, m: nat)
    requires n > 0
    ensures Turn(n, m) == m % n
  {
    if m > 0 {
      TurnIsRemainder(n, m - 1);
      ModStep(m - 1, n);
    }
  }

  /** How many of the first `m` turns fall to `c`. */
  function Share(n: nat, c: nat, m: nat): nat
    requires n > 0
  {
    if m == 0 then 0 else Share(n, c, m - 1) + (if Turn(n, m - 1) == c then 1 else 0)
  }

  /** Of two the lower-numbered comes first, and is never more than one turn ahead. */
  lemma {:induction false} SharesDiffer(n: nat, c: nat, d: nat, m: nat)
    requires c < d < n
    ensures Share(n, c, m) - Share(n, d, m) == if c < Turn(n, m) <= d then 1 else 0
  {
    if m > 0 { SharesDiffer(n, c, d, m - 1); }
  }

  /** The IRQs are assigned in turn. */
  ghost predicate InTurn(irqs: seq<string>, want: map<string, int>, n: nat)
    requires n > 0 && forall irq :: irq in irqs ==> irq in want
  {
    forall i :: 0 <= i < |irqs| ==> want[irqs[i]] == Turn(n, i)
  }

  lemma TurnOf(irqs: seq<string>, want: map<string, int>, n: nat, i: nat)
    requires n > 0 && i < |irqs| && (forall irq :: irq in irqs ==> irq in want) && InTurn(irqs, want, n)
    ensures want[irqs[i]] == Turn(n, i)
  {}

  lemma {:induction false} LoadIsShare(irqs: seq<string>, want: map<string, int>, n: nat, c: nat, m: nat)
    requires m <= |irqs| && c < n && (forall irq :: irq in irqs ==> irq in want) && InTurn(irqs, want, n)
    ensures LoadTo(irqs, want, c, m) == Share(n, c, m)
  {
    if m > 0 {
      LoadIsShare(irqs, want, n, c, m - 1);
      TurnOf(irqs, want, n, m - 1);
    }
  }

  lemma SortedIRQsDistinct(interrupts: string, iface: string)
    requires Distinct(QueueIRQs(Split(interrupts, '\n'), iface + "-"))
    ensures Distinct(IRQsOf(interrupts, iface))
  {
    var raw := QueueIRQs(Split(interrupts, '\n'), iface + "-");
    var ns := Sort(IntLe, raw);
    SortInts(raw);
    QueueIRQsInRange(Split(interrupts, '\n'), iface + "-");
    forall i, j | 0 <= i < j < |ns| ensures Itoa(ns[i]) != Itoa(ns[j]) {
      assert ns[i] in ns && ns[j] in ns;
      AtoiItoa(ns[i]);
      AtoiItoa(ns[j]);
    }
  }

  lemma {:induction false} QueueIRQsInRange(lines: seq<string>, prefix: string)
    ensures forall n :: n in QueueIRQs(lines, prefix) ==> IsInt64(n)
  {
    if lines != [] { QueueIRQsInRange(lines[1..], prefix); }
  }

  /** With distinct queue IRQs every IRQ gets one CPU, and the loads of any two CPUs differ by at most one,
      the lower-numbered CPU first. */
  lemma SpreadIsBalanced(interrupts: string, iface: string, n: nat)
    requires n > 1 && Distinct(QueueIRQs(Split(interrupts, '\n'), iface + "-"))
    ensures var irqs := IRQsOf(interrupts, iface); var want := Desired(irqs, n);
      && (forall irq :: irq in irqs ==> 0 <= want[irq] < n)
      && (forall c, d: nat :: 0 <= c < d < n ==> 0 <= Load(irqs, want, c) - Load(irqs, want, d) <= 1)
  {
    var irqs := IRQsOf(interrupts, iface);
    SortedIRQsDistinct(interrupts, iface);
    RoundRobinIsBalanced(irqs, n);
  }

  lemma RoundRobinIsBalanced(irqs: seq<string>, n: nat)
    requires n > 1 && Distinct(irqs)
    ensures var want := Desired(irqs, n);
      && (forall irq :: irq in irqs ==> 0 <= want[irq] < n)
      && (forall c, d: nat :: 0 <= c < d < n ==> 0 <= Load(irqs, want, c) - Load(irqs, want, d) <= 1)
  {
    var want := Desired(irqs, n);
    forall i | 0 <= i < |irqs| ensures want[irqs[i]] == Turn(n, i) {
      DesiredAt(irqs, n, i);
      TurnIsRemainder(n, i);
    }
    forall irq | irq in irqs ensures 0 <= want[irq] < n {
      var i :| 0 <= i < |irqs| && irqs[i] == irq;
    }
    forall c, d: nat | 0 <= c < d < n ensures 0 <= Load(irqs, want, c) - Load(irqs, want, d) <= 1 {
      LoadIsShare(irqs, want, n, c, |irqs|);
      LoadIsShare(irqs, want, n, d, |irqs|);
      SharesDiffer(n, c, d, |irqs|);
    }
  }

  // ---- Check and Apply

  /** /proc/interrupts, and the text of smp_affinity_list by IRQ. */
  datatype IrqHost = IrqHost(
    interrupts: Option<string>, affinity: map<string, string>, unreadable: set<string>, unwritable: set<string>)

  datatype IRQAffinityResource = IRQAffinityResource(iface: string, numCPUs: int) {

    static predicate Readable(h: IrqHost, irq: string) { irq in h.affinity && irq !in h.unreadable }

    static predicate Drifted(h: IrqHost, irq: string, cpu: int) {
      Readable(h, irq) && TrimSpace(h.affinity[irq]) != Itoa(cpu)
    }

    function Check(h: IrqHost): Checked {
      if iface == "" || numCPUs <= 1 then Checked(Skipped, false)
      else
        match h.interrupts
        case None => Checked(Failed, true)
        case Some(text) =>
          var irqs := IRQsOf(text, iface);
          var want := Desired(irqs, numCPUs);
          if irqs == [] then Checked(Skipped, false)
          else if exists irq :: irq in irqs && Drifted(h, irq, want[irq]) then Checked(WouldChange, false)
          else Checked(Unchanged, false)
    }

    /** Every queue's IRQ that can be read is where the round robin puts it. */
    ghost predicate Spread(h: IrqHost)
      requires h.interrupts.Some? && numCPUs > 1
    {
      var irqs := IRQsOf(h.interrupts.value, iface);
      forall i :: 0 <= i < |irqs| && (forall j :: i < j < |irqs| ==> irqs[j] != irqs[i]) && Readable(h, irqs[i]) ==>
        TrimSpace(h.affinity[irqs[i]]) == Itoa(i % numCPUs)
    }

    static lemma {:induction false} LastPosition(irqs: seq<string>, irq: string) returns (i: nat)
      requires irq in irqs
      ensures i < |irqs| && irqs[i] == irq && forall j :: i < j < |irqs| ==> irqs[j] != irq
    {
      if irqs[|irqs| - 1] == irq { i := |irqs| - 1; } else { i := LastPosition(irqs[..|irqs| - 1], irq); }
    }

    lemma SpreadIff(h: IrqHost)
      requires h.interrupts.Some? && numCPUs > 1
      ensures var irqs := IRQsOf(h.interrupts.value, iface);
        Spread(h) <==> forall irq :: irq in irqs ==> !Drifted(h, irq, Desired(irqs, numCPUs)[irq])
    {
      var irqs := IRQsOf(h.interrupts.value, iface);
      forall i | 0 <= i < |irqs| && forall j :: i < j < |irqs| ==> irqs[j] != irqs[i] ensures Desired(irqs, numCPUs)[irqs[i]] == i % numCPUs {
        DesiredLast(irqs, numCPUs, i);
      }
      if Spread(h) {
        forall irq | irq in irqs ensures !Drifted(h, irq, Desired(irqs, numCPUs)[irq]) { var i := LastPosition(irqs, irq); }
      }
    }

    lemma CheckIff(h: IrqHost)
      ensures Check(h) == Checked(Failed, true) <==> iface != "" && numCPUs > 1 && h.interrupts == None
      ensures Check(h) == Checked(WouldChange, false) <==> iface != "" && numCPUs > 1 && h.interrupts.Some? && !Spread(h)
      ensures Check(h).status in {Failed, WouldChange, Unchanged, Skipped} && (Check(h).err <==> Check(h).status == Failed)
      ensures Check(h).status == Skipped <==>
        iface == "" || numCPUs <= 1 || (h.interrupts.Some? && IRQsOf(h.interrupts.value, iface) == [])
    {
      if numCPUs > 1 && h.interrupts.Some? { SpreadIff(h); }
    }

    static function ApplyFrom(irqs: seq<string>, want: map<string, int>, h: IrqHost, echo: string -> string): Applied<IrqHost>
      requires forall irq :: irq in irqs ==> irq in want
      decreases |irqs|
    {
      if irqs == [] then Applied(h, true)
      else
        assert irqs[0] in irqs;
        var irq, text := irqs[0], Itoa(want[irqs[0]]);
        if Readable(h, irq) && TrimSpace(h.affinity[irq]) == text then ApplyFrom(irqs[1..], want, h, echo)
        else if irq !in h.affinity || irq in h.unwritable then Applied(h, false)
        else ApplyFrom(irqs[1..], want, h.(affinity := h.affinity[irq := echo(text)]), echo)
    }

    function Apply(h: IrqHost, echo: string -> string): Applied<IrqHost> {
      match h.interrupts
      case None => Applied(h, false)
      case Some(text) => ApplyFrom(IRQsOf(text, iface), Desired(IRQsOf(text, iface), numCPUs), h, echo)
    }

    static method CountDrift(h: IrqHost, irqs: seq<string>, want: map<string, int>) returns (drift: nat)
      requires forall irq :: irq in irqs ==> irq in want
      ensures drift > 0 <==> exists irq :: irq in irqs && Drifted(h, irq, want[irq])
    {
      drift := 0;
      for i := 0 to |irqs|
        invariant drift > 0 <==> exists j :: 0 <= j < i && Drifted(h, irqs[j], want[irqs[j]])
      {
        if !Readable(h, irqs[i]) { continue; }
        if TrimSpace(h.affinity[irqs[i]]) != Itoa(want[irqs[i]]) { drift := drift + 1; }
      }
    }

    method CheckNode(node: Node<IrqHost>) returns (res: Checked)
      ensures res == Check(node.host)
    {
      if iface == "" || numCPUs <= 1 { return Checked(Skipped, false); }
      if node.host.interrupts == None { return Checked(Failed, true); }
      var irqs := EnaIRQs(node.host.interrupts.value, iface);
      if |irqs| == 0 { return Checked(Skipped, false); }
      var want := DesiredAffinity(irqs, numCPUs);
      var drift := CountDrift(node.host, irqs, want);
      if drift == 0 { return Checked(Unchanged, false); }
      res := Checked(WouldChange, false);
    }

    method ApplyNode(node: Node<IrqHost>, echo: string -> string) returns (ok: bool)
      modifies node
      ensures Applied(node.host, ok) == Apply(old(node.host), echo)
    {
      if node.host.interrupts == None { return false; }
      var irqs := EnaIRQs(node.host.interrupts.value, iface);
      var want := DesiredAffinity(irqs, numCPUs);
      for i := 0 to |irqs|
        invariant ApplyFrom(irqs[i..], want, node.host, echo) == ApplyFrom(irqs, want, old(node.host), echo)
      {
        var irq := irqs[i];
        assert irq in irqs && irqs[i..][0] == irq && irqs[i..][1..] == irqs[i + 1..];
        var text := Itoa(want[irq]);
        if Readable(node.host, irq) && TrimSpace(node.host.affinity[irq]) == text { continue; }
        if irq !in node.host.affinity || irq in node.host.unwritable { return false; }
        node.host := node.host.(affinity := node.host.affinity[irq := echo(text)]);
      }
      ok := true;
    }

    static lemma {:induction false} ApplyFromEffect(irqs: seq<string>, want: map<string, int>, h: IrqHost, echo: string -> string)
      requires forall irq :: irq in irqs ==> irq in want
      requires EchoesNumbers(echo) && ApplyFrom(irqs, want, h, echo).ok
      ensures var h' := ApplyFrom(irqs, want, h, echo).state;
        && h' == h.(affinity := h'.affinity) && h'.affinity.Keys == h.affinity.Keys
        && (forall irq :: irq in h.affinity && irq !in irqs ==> h'.affinity[irq] == h.affinity[irq])
        && (forall irq :: irq in irqs ==> irq in h'.affinity)
        && (forall irq :: irq in h.affinity && irq in want && TrimSpace(h.affinity[irq]) == Itoa(want[irq]) ==> TrimSpace(h'.affinity[irq]) == Itoa(want[irq]))
        && (forall irq :: irq in irqs ==> TrimSpace(h'.affinity[irq]) == Itoa(want[irq]))
        && (forall irq :: irq in want && Readable(h, irq) && TrimSpace(h.affinity[irq]) == Itoa(want[irq]) ==> h'.affinity[irq] == h.affinity[irq])
      decreases |irqs|
    {
      if irqs != [] {
        var irq, text := irqs[0], Itoa(want[irqs[0]]);
        assert forall x :: x in irqs <==> x == irq || x in irqs[1..];
        if Readable(h, irq) && TrimSpace(h.affinity[irq]) == text {
          ApplyFromEffect(irqs[1..], want, h, echo);
        } else {
          ApplyFromEffect(irqs[1..], want, h.(affinity := h.affinity[irq := echo(text)]), echo);
        }
      }
    }

    /** The sweep fails exactly when some IRQ of the list is not known to be right and has no file, or one that cannot be
        written. */
    static lemma {:induction false} SweepSucceedsIff(irqs: seq<string>, want: map<string, int>, h: IrqHost, echo: string -> string)
      requires EchoesNumbers(echo) && forall irq :: irq in irqs ==> irq in want
      ensures ApplyFrom(irqs, want, h, echo).ok <==> forall irq :: irq in irqs ==>
        (Readable(h, irq) && TrimSpace(h.affinity[irq]) == Itoa(want[irq])) || (irq in h.affinity && irq !in h.unwritable)
      decreases |irqs|
    {
      if irqs != [] {
        var irq, text := irqs[0], Itoa(want[irqs[0]]);
        assert forall x :: x in irqs <==> x == irq || x in irqs[1..];
        if Readable(h, irq) && TrimSpace(h.affinity[irq]) == text {
          SweepSucceedsIff(irqs[1..], want, h, echo);
        } else if irq in h.affinity && irq !in h.unwritable {
          SweepSucceedsIff(irqs[1..], want, h.(affinity := h.affinity[irq := echo(text)]), echo);
        }
      }
    }

    /** A successful Apply leaves no drift, and touches the affinity of no other IRQ, nor of one that was right. */
    lemma ApplyConverges(h: IrqHost, echo: string -> string)
      requires EchoesNumbers(echo) && Apply(h, echo).ok
      ensures var h' := Apply(h, echo).state;
        && !Check(h').err && Check(h').status in {Unchanged, Skipped}
        && forall irq :: irq in h.affinity && irq !in IRQsOf(h.interrupts.value, iface) ==>
             irq in h'.affinity && h'.affinity[irq] == h.affinity[irq]
      ensures var h', irqs := Apply(h, echo).state, IRQsOf(h.interrupts.value, iface);
        forall irq :: irq in irqs && Readable(h, irq) && !Drifted(h, irq, Desired(irqs, numCPUs)[irq]) ==>
          irq in h'.affinity && h'.affinity[irq] == h.affinity[irq]
    {
      var irqs := IRQsOf(h.interrupts.value, iface);
      ApplyFromEffect(irqs, Desired(irqs, numCPUs), h, echo);
    }
  }

  /** The kernel reads a CPU number back as written, give or take white space. */
  ghost predicate EchoesNumbers(echo: string -> string) {
    forall n: int :: TrimSpace(echo(Itoa(n))) == Itoa(n)
  }
}
