/** The swap and mount resources: the commands they run, and the fstab they share. */
module SwapMount {
  import N = Numbers
  import opened Text
  import opened Engine
  import opened HostState
  import opened Fstab
  import opened FstabHistory
  import AtomicFile

  const PROC_SWAPS := "/proc/swaps"
  const PROC_MOUNTS := "/proc/mounts"
  const LIST_UNITS := ["systemctl", "list-units", "--type=swap", "--no-legend", "--plain"]

  function BackupFaultsOf(h: Host): AtomicFile.BackupFaults {
    AtomicFile.BackupFaults(
      FSTAB in h.unreadable, BACKUP in h.unstattable, BACKUP in h.unwritable, BACKUP in h.short, if BACKUP in h.short then h.short[BACKUP] else 0)
  }

  /** `BackupFile`, with the host's failures. */
  function Backup(h: Host): Applied<Host> {
    var (files, ok) := AtomicFile.BackupStep(h.files, FSTAB, BackupFaultsOf(h));
    Applied(h.(files := files), ok)
  }

  /** Back up, then write the new text. */
  function ReplaceFstab(h: Host, content: string): Applied<Host> {
    var b := Backup(h);
    if b.ok then WriteFile(b.state, FSTAB, content) else b
  }

  // ---- swap

  /** The devices in /proc/swaps, below its header line. */
  function ActiveDevices(text: string): seq<string> { FirstFields(Lines(text)[1..]) }

  method ActiveSwapDevices(text: string) returns (devices: seq<string>)
    ensures devices == ActiveDevices(text)
  {
    var lines := Lines(text);
    devices := [];
    var first := true;
    for i := 0 to |lines|
      invariant first <==> i == 0
      invariant i == 0 ==> devices == []
      invariant i > 0 ==> devices + FirstFields(lines[i..]) == ActiveDevices(text)
    {
      if first {
        first := false;
        continue;
      }
      FirstFieldsStep(devices, lines, i);
      devices := devices + FirstOf(lines[i]);
    }
  }

  /** The units in a listing. */
  function Units(text: string): seq<string> { FirstFields(Lines(text)) }

  function SwapUnits(h: Host): seq<string> { if LIST_UNITS in h.broken then [] else Units(h.swapUnits) }

  function SwapCheck(h: Host): Checked {
    if PROC_SWAPS in h.unreadable then Checked(Failed, true)
    else
      var clean := ActiveDevices(h.procSwaps) == [] && !HasActiveSwap(ReadOrEmpty(h, FSTAB)) && SwapUnits(h) == [];
      Checked(if clean then Unchanged else WouldChange, false)
  }

  method SwapCheckNode(node: Node<Host>) returns (res: Checked)
    ensures res == SwapCheck(node.host)
  {
    if PROC_SWAPS in node.host.unreadable { return Checked(Failed, true); }
    var active := ActiveSwapDevices(node.host.procSwaps);
    var fstabDrift := FstabHasActiveSwapLines(ReadOrEmpty(node.host, FSTAB));
    var units := ActiveSwapUnits(node.host);
    res := Checked(if |active| == 0 && !fstabDrift && |units| == 0 then Unchanged else WouldChange, false);
  }

  method ActiveSwapUnits(h: Host) returns (units: seq<string>)
    ensures units == SwapUnits(h)
  {
    units := [];
    if LIST_UNITS in h.broken { return; }
    var lines := Lines(h.swapUnits);
    for i := 0 to |lines|
      invariant units + FirstFields(lines[i..]) == FirstFields(lines)
    {
      FirstFieldsStep(units, lines, i);
      units := units + FirstOf(lines[i]);
    }
  }

  function CommentFstab(h: Host): Applied<Host> {
    match ReadFile(h, FSTAB)
    case NotExist => Applied(h, true)
    case ReadError => Applied(h, false)
    case Content(text) => if HasActiveSwap(text) then ReplaceFstab(h, CommentSwap(text)) else Applied(h, true)
  }

  function MaskUnits(k: Kernel, units: seq<string>, h: Host): Applied<Host>
    decreases |units|
  {
    if units == [] then Applied(h, true)
    else if ["systemctl", "mask", units[0]] in h.broken then Applied(h, false)
    else MaskUnits(k, units[1..], h.(swapUnits := k.mask(h.swapUnits, units[0])))
  }

  function SwapOff(k: Kernel, h: Host): Applied<Host> {
    if ActiveDevices(h.procSwaps) == [] then Applied(h, true)
    else if ["swapoff", "-a"] in h.broken then Applied(h, false)
    else Applied(h.(procSwaps := k.swapoff(h.procSwaps), swapUnits := k.swapoffUnits(h.swapUnits)), true)
  }

  function SwapApply(k: Kernel, h: Host): Applied<Host> {
    if PROC_SWAPS in h.unreadable then Applied(h, false)
    else
      var off := SwapOff(k, h);
      if !off.ok then off
      else
        var edited := CommentFstab(off.state);
        if !edited.ok then edited else MaskUnits(k, SwapUnits(edited.state), edited.state)
  }

  method SwapApplyNode(k: Kernel, node: Node<Host>) returns (ok: bool)
    modifies node
    ensures Applied(node.host, ok) == SwapApply(k, old(node.host))
  {
    if PROC_SWAPS in node.host.unreadable { return false; }
    var active := ActiveSwapDevices(node.host.procSwaps);
    if |active| > 0 {
      if ["swapoff", "-a"] in node.host.broken { return false; }
      node.host := node.host.(procSwaps := k.swapoff(node.host.procSwaps), swapUnits := k.swapoffUnits(node.host.swapUnits));
    }
    ok := CommentFstabNode(node);
    if !ok { return; }
    var units := ActiveSwapUnits(node.host);
    ghost var edited := node.host;
    for i := 0 to |units|
      invariant MaskUnits(k, units[i..], node.host) == MaskUnits(k, units, edited)
    {
      assert units[i..][0] == units[i] && units[i..][1..] == units[i + 1..];
      if ["systemctl", "mask", units[i]] in node.host.broken { return false; }
      node.host := node.host.(swapUnits := k.mask(node.host.swapUnits, units[i]));
    }
    ok := true;
  }

  method CommentFstabNode(node: Node<Host>) returns (ok: bool)
    modifies node
    ensures Applied(node.host, ok) == CommentFstab(old(node.host))
  {
    match ReadFile(node.host, FSTAB)
    case NotExist => ok := true;
    case ReadError => ok := false;
    case Content(text) =>
      var found := FstabHasActiveSwapLines(text);
      if !found { return true; }
      var b := Backup(node.host);
      node.host := b.state;
      if !b.ok { return false; }
      var content := CommentFstabSwapLines(text);
      var written := WriteFile(node.host, FSTAB, content);
      node.host := written.state;
      ok := written.ok;
  }

  // ---- what Check and Apply mean

  /** Said of the lines: /proc/swaps lists nothing below its header, no line of a readable fstab outside comments has type
      swap, and systemd, if it can be asked, lists no unit. */
  ghost predicate SwapIsOff(h: Host) {
    && (forall i :: 1 <= i < |Split(h.procSwaps, '\n')| ==> Fields(Split(h.procSwaps, '\n')[i]) == [])
    && (FSTAB in h.files && FSTAB !in h.unreadable ==> forall line :: line in Split(h.files[FSTAB], '\n') ==>
          var fields := Fields(line); !(|fields| >= 3 && !HasPrefix(fields[0], "#") && fields[2] == "swap"))
    && (LIST_UNITS !in h.broken ==> forall line :: line in Split(h.swapUnits, '\n') ==> Fields(line) == [])
  }

  lemma NoDevices(text: string)
    ensures ActiveDevices(text) == [] <==> forall i :: 1 <= i < |Split(text, '\n')| ==> Fields(Split(text, '\n')[i]) == []
  {
    var lines := Split(text, '\n');
    NoFirstFields(lines[1..]);
    forall i | 1 <= i < |lines| ensures lines[i] in lines[1..] { assert lines[1..][i - 1] == lines[i]; }
  }

  lemma NoActiveSwap(text: string)
    ensures !HasActiveSwap(text) <==> forall line :: line in Split(text, '\n') ==>
      var fields := Fields(line); !(|fields| >= 3 && !HasPrefix(fields[0], "#") && fields[2] == "swap")
  {
    forall line ensures SwapEntry(line) <==> var fields := Fields(line); |fields| >= 3 && !HasPrefix(fields[0], "#") && fields[2] == "swap" {
      ClassifiersByFields(line, "");
    }
  }

  lemma SwapCheckIff(h: Host)
    ensures SwapCheck(h) == Checked(Failed, true) <==> PROC_SWAPS in h.unreadable
    ensures SwapCheck(h) == Checked(Unchanged, false) <==> PROC_SWAPS !in h.unreadable && SwapIsOff(h)
    ensures SwapCheck(h) == Checked(WouldChange, false) <==> PROC_SWAPS !in h.unreadable && !SwapIsOff(h)
  {
    NoDevices(h.procSwaps);
    NoActiveSwap(ReadOrEmpty(h, FSTAB));
    NoFirstFields(Split(h.swapUnits, '\n'));
    if FSTAB !in h.files || FSTAB in h.unreadable {
      assert Split("", '\n') == [""];
      BlankIsNoEntry("");
      assert !HasActiveSwap("");
    }
  }

  /** What a successful Apply has done: swap switched off if any device was active, and in an existing fstab every entry
      of type swap commented out. */
  lemma SwapApplied(k: Kernel, h: Host)
    requires SwapApply(k, h).ok
    ensures var h' := SwapApply(k, h).state;
      var idle := forall i :: 1 <= i < |Split(h.procSwaps, '\n')| ==> Fields(Split(h.procSwaps, '\n')[i]) == [];
      && h'.procSwaps == (if idle then h.procSwaps else k.swapoff(h.procSwaps))
      && (FSTAB in h.files <==> FSTAB in h'.files)
      && (FSTAB in h.files ==> h'.files[FSTAB] == CommentSwap(h.files[FSTAB]))
      && (!idle ==> ["swapoff", "-a"] !in h.broken)
  {
    var off := SwapOff(k, h).state;
    var edited := CommentFstab(off).state;
    NoDevices(h.procSwaps);
    SwapOffFrame(k, h);
    MaskUnitsFrame(k, SwapUnits(edited), edited);
    CommentApplied(off);
  }

  lemma CommentApplied(h: Host)
    requires CommentFstab(h).ok
    ensures var h' := CommentFstab(h).state;
      && h'.procSwaps == h.procSwaps
      && (FSTAB in h.files <==> FSTAB in h'.files) && (FSTAB in h.files ==> h'.files[FSTAB] == CommentSwap(h.files[FSTAB]))
  {
    if FSTAB in h.files && FSTAB !in h.unreadable {
      var text := h.files[FSTAB];
      if HasActiveSwap(text) { ReplaceFrame(h, CommentSwap(text)); } else { NothingToComment(text); }
    }
  }

  lemma {:induction false} MasksIff(k: Kernel, units: seq<string>, h: Host)
    ensures MaskUnits(k, units, h).ok <==> forall u :: u in units ==> ["systemctl", "mask", u] !in h.broken
    decreases |units|
  {
    if units != [] {
      MasksIff(k, units[1..], h.(swapUnits := k.mask(h.swapUnits, units[0])));
      assert forall u :: u in units <==> u == units[0] || u in units[1..];
    }
  }

  /** The backup is there already, or can be made whole. */
  predicate CanBackUp(h: Host) {
    FSTAB !in h.files || (BACKUP !in h.unstattable && BACKUP in h.files) || (BACKUP !in h.unwritable && BACKUP !in h.short)
  }

  lemma ReplaceSucceedsIff(h: Host, content: string)
    requires FSTAB !in h.unreadable && (FSTAB in h.files ==> h.files[FSTAB] != content)
    ensures ReplaceFstab(h, content).ok <==> CanBackUp(h) && FSTAB !in h.unwritable
  {}

  /** Apply succeeds exactly when /proc/swaps reads, swapoff runs if a device is active, fstab reads and, if it has an active
      entry, can be backed up and written, and every unit then listed can be masked. */
  lemma SwapSucceedsIff(k: Kernel, h: Host)
    ensures SwapApply(k, h).ok <==>
      && PROC_SWAPS !in h.unreadable
      && (ActiveDevices(h.procSwaps) != [] ==> ["swapoff", "-a"] !in h.broken)
      && FSTAB !in h.unreadable
      && (FSTAB in h.files && HasActiveSwap(h.files[FSTAB]) ==> CanBackUp(h) && FSTAB !in h.unwritable)
      && (forall u :: u in SwapUnits(SwapOff(k, h).state) ==> ["systemctl", "mask", u] !in h.broken)
  {
    var off := SwapOff(k, h).state;
    var edited := CommentFstab(off).state;
    SwapOffFrame(k, h);
    CommentFrame(off);
    CommentSucceedsIff(off);
    MasksIff(k, SwapUnits(edited), edited);
  }

  lemma CommentSucceedsIff(h: Host)
    ensures CommentFstab(h).ok <==>
      FSTAB !in h.unreadable && (FSTAB in h.files && HasActiveSwap(h.files[FSTAB]) ==> CanBackUp(h) && FSTAB !in h.unwritable)
  {
    if FSTAB in h.files && FSTAB !in h.unreadable && HasActiveSwap(h.files[FSTAB]) {
      CommentSwapLonger(h.files[FSTAB]);
      ReplaceSucceedsIff(h, CommentSwap(h.files[FSTAB]));
    }
  }

  // ---- when swap settles

  /** Masking puts no unit on the listing. */
  ghost predicate MaskAddsNone(k: Kernel) { forall text, u, x :: x in Units(k.mask(text, u)) ==> x in Units(text) }

  /** Masking the unit takes it off the listing. */
  ghost predicate Delists(k: Kernel, u: string) { forall text :: u !in Units(k.mask(text, u)) }

  /** No masking takes the unit off the listing. */
  ghost predicate Keeps(k: Kernel, u: string) { forall text, x :: u in Units(text) ==> u in Units(k.mask(text, x)) }

  lemma {:induction false} MaskUnitsFrame(k: Kernel, units: seq<string>, h: Host)
    ensures var h' := MaskUnits(k, units, h).state; h' == h.(swapUnits := h'.swapUnits)
    ensures MaskAddsNone(k) ==> forall x :: x in Units(MaskUnits(k, units, h).state.swapUnits) ==> x in Units(h.swapUnits)
    decreases |units|
  {
    if units != [] { MaskUnitsFrame(k, units[1..], h.(swapUnits := k.mask(h.swapUnits, units[0]))); }
  }

  lemma {:induction false} MaskUnitsDelist(k: Kernel, units: seq<string>, h: Host, u: string)
    requires MaskAddsNone(k) && Delists(k, u) && u in units && MaskUnits(k, units, h).ok
    ensures u !in Units(MaskUnits(k, units, h).state.swapUnits)
    decreases |units|
  {
    var next := h.(swapUnits := k.mask(h.swapUnits, units[0]));
    if u == units[0] { MaskUnitsFrame(k, units[1..], next); } else { MaskUnitsDelist(k, units[1..], next, u); }
  }

  lemma {:induction false} MaskUnitsKeep(k: Kernel, units: seq<string>, h: Host, u: string)
    requires Keeps(k, u) && u in Units(h.swapUnits)
    ensures u in Units(MaskUnits(k, units, h).state.swapUnits)
    decreases |units|
  {
    if units != [] && ["systemctl", "mask", units[0]] !in h.broken {
      MaskUnitsKeep(k, units[1..], h.(swapUnits := k.mask(h.swapUnits, units[0])), u);
    }
  }

  lemma FirstMember(a: seq<string>)
    requires a != []
    ensures exists x :: x in a
  {
    assert a[0] in a;
  }

  lemma SwapOffFrame(k: Kernel, h: Host)
    ensures var h' := SwapOff(k, h).state; h' == h.(procSwaps := h'.procSwaps, swapUnits := h'.swapUnits)
  {}

  lemma ReplaceFrame(h: Host, content: string)
    ensures var h' := ReplaceFstab(h, content).state;
      && h' == h.(files := h'.files) && SameElsewhere(h', h, {FSTAB, BACKUP})
      && (ReadOrEmpty(h', FSTAB) == ReadOrEmpty(h, FSTAB) || ReadOrEmpty(h', FSTAB) == content)
    ensures ReplaceFstab(h, content).ok ==> ReadFile(ReplaceFstab(h, content).state, FSTAB) == Content(content)
  {
    WriteFileEffect(Backup(h).state, FSTAB, content);
  }

  lemma CommentFrame(h: Host)
    ensures var h' := CommentFstab(h).state; h' == h.(files := h'.files) && SameElsewhere(h', h, {FSTAB, BACKUP})
  {
    ReplaceFrame(h, CommentSwap(ReadOrEmpty(h, FSTAB)));
  }

  /** A successful edit leaves no active swap entry. */
  lemma CommentSettles(h: Host)
    requires CommentFstab(h).ok
    ensures !HasActiveSwap(ReadOrEmpty(CommentFstab(h).state, FSTAB))
  {
    var text := ReadOrEmpty(h, FSTAB);
    BlankIsNoEntry("");
    CommentSwapExact(text);
    ReplaceFrame(h, CommentSwap(text));
  }

  /** Whatever the outcome, swap touches nothing but the swap table, the unit listing, fstab and its backup. */
  lemma SwapFrame(k: Kernel, h: Host)
    ensures var h' := SwapApply(k, h).state;
      h' == h.(procSwaps := h'.procSwaps, swapUnits := h'.swapUnits, files := h'.files) && SameElsewhere(h', h, {FSTAB, BACKUP})
  {
    var off := SwapOff(k, h).state;
    var edited := CommentFstab(off).state;
    SwapOffFrame(k, h);
    CommentFrame(off);
    MaskUnitsFrame(k, SwapUnits(edited), edited);
  }

  /** The listing after masking every unit that is listed. */
  lemma MaskingLeaves(k: Kernel, h: Host)
    requires MaskAddsNone(k) && MaskUnits(k, SwapUnits(h), h).ok
    requires forall u :: u in SwapUnits(h) ==> Delists(k, u) || Keeps(k, u)
    ensures var h' := MaskUnits(k, SwapUnits(h), h).state;
      SwapUnits(h') == [] <==> forall u :: u in SwapUnits(h) ==> !Keeps(k, u)
  {
    var h' := MaskUnits(k, SwapUnits(h), h).state;
    MaskUnitsFrame(k, SwapUnits(h), h);
    forall u | u in SwapUnits(h) ensures u in SwapUnits(h') <==> Keeps(k, u) {
      if Keeps(k, u) { MaskUnitsKeep(k, SwapUnits(h), h, u); } else { MaskUnitsDelist(k, SwapUnits(h), h, u); }
    }
    if SwapUnits(h') != [] { FirstMember(SwapUnits(h')); }
  }

  /** Provided masking each unit listed after swapoff takes it off the listing, or none does, a successful Apply
      settles swap exactly when swapoff left no device and none of those units is kept. */
  lemma SwapSettlesIff(k: Kernel, h: Host)
    requires MaskAddsNone(k) && SwapApply(k, h).ok
    requires forall u :: u in SwapUnits(SwapOff(k, h).state) ==> Delists(k, u) || Keeps(k, u)
    ensures var off := SwapOff(k, h).state;
      SwapCheck(SwapApply(k, h).state) == Checked(Unchanged, false)
      <==> ActiveDevices(off.procSwaps) == [] && forall u :: u in SwapUnits(off) ==> !Keeps(k, u)
  {
    var off := SwapOff(k, h).state;
    var edited := CommentFstab(off).state;
    SwapParts(k, h);
    MaskingLeaves(k, edited);
  }

  /** A successful Apply, step by step. */
  lemma SwapParts(k: Kernel, h: Host)
    requires SwapApply(k, h).ok
    ensures var off, h' := SwapOff(k, h).state, SwapApply(k, h).state;
      var edited := CommentFstab(off).state;
      && MaskUnits(k, SwapUnits(edited), edited).ok && h' == MaskUnits(k, SwapUnits(edited), edited).state
      && SwapUnits(edited) == SwapUnits(off) && h'.procSwaps == off.procSwaps
      && PROC_SWAPS !in h'.unreadable && !HasActiveSwap(ReadOrEmpty(h', FSTAB))
  {
    var off := SwapOff(k, h).state;
    var edited := CommentFstab(off).state;
    SwapOffFrame(k, h);
    CommentFrame(off);
    CommentSettles(off);
    MaskUnitsFrame(k, SwapUnits(edited), edited);
  }

  /** Every unit still listed once swap is off goes when it is masked. */
  ghost predicate UnitsLeave(k: Kernel, h: Host) { forall u :: u in SwapUnits(SwapOff(k, h).state) ==> Delists(k, u) }

  ghost predicate SwapoffWorks(k: Kernel) { forall text :: ActiveDevices(k.swapoff(text)) == [] }

  lemma UnitsLeaveSettles(k: Kernel, h: Host)
    requires MaskAddsNone(k) && SwapoffWorks(k) && UnitsLeave(k, h) && SwapApply(k, h).ok
    ensures SwapCheck(SwapApply(k, h).state) == Checked(Unchanged, false)
  {
    var off := SwapOff(k, h).state;
    SwapSettlesIff(k, h);
    forall u | u in SwapUnits(off) ensures !Keeps(k, u) { DelistedIsNotKept(k, u, off.swapUnits); }
  }

  lemma DelistedIsNotKept(k: Kernel, u: string, text: string)
    requires Delists(k, u) && u in Units(text)
    ensures !Keeps(k, u)
  {
    assert u !in Units(k.mask(text, u));
  }

  /** Apply, completed or not, keeps that so. */
  lemma UnitsLeaveStays(k: Kernel, h: Host)
    requires MaskAddsNone(k) && SwapoffWorks(k) && UnitsLeave(k, h)
    ensures UnitsLeave(k, SwapApply(k, h).state)
  {
    var h' := SwapApply(k, h).state;
    SwapFrame(k, h);
    SwapShrinks(k, h);
    if h' != h { assert SwapOff(k, h').state == h'; }
  }

  lemma SwapShrinks(k: Kernel, h: Host)
    requires MaskAddsNone(k) && SwapoffWorks(k)
    ensures var h', off := SwapApply(k, h).state, SwapOff(k, h).state;
      h' == h || (ActiveDevices(h'.procSwaps) == [] && forall u :: u in Units(h'.swapUnits) ==> u in Units(off.swapUnits))
  {
    var off := SwapOff(k, h).state;
    var edited := CommentFstab(off).state;
    CommentFrame(off);
    MaskUnitsFrame(k, SwapUnits(edited), edited);
  }

  // ---- when it does not

  /** Neither swapoff nor masking takes the unit off the listing. */
  ghost predicate Stubborn(k: Kernel, u: string) {
    Keeps(k, u) && forall text :: u in Units(text) ==> u in Units(k.swapoffUnits(text))
  }

  predicate Listed(h: Host, u: string) { u in Units(h.swapUnits) && LIST_UNITS !in h.broken && PROC_SWAPS !in h.unreadable }

  lemma ListedStays(k: Kernel, h: Host, u: string)
    requires Stubborn(k, u) && Listed(h, u)
    ensures Listed(SwapApply(k, h).state, u)
  {
    var off := SwapOff(k, h).state;
    var edited := CommentFstab(off).state;
    SwapFrame(k, h);
    SwapOffFrame(k, h);
    CommentFrame(off);
    ListedAfterSwapoff(k, h, u);
    MaskUnitsKeep(k, SwapUnits(edited), edited, u);
  }

  lemma ListedAfterSwapoff(k: Kernel, h: Host, u: string)
    requires Stubborn(k, u) && u in Units(h.swapUnits)
    ensures u in Units(SwapOff(k, h).state.swapUnits)
  {}

  lemma ListedDrifts(h: Host, u: string)
    requires Listed(h, u)
    ensures SwapCheck(h) == Checked(WouldChange, false)
  {}

  function SwapApplier(k: Kernel): Host -> Host { (h: Host) => SwapApply(k, h).state }

  /** While systemd goes on listing a unit, swap off and masked, swap drifts for ever, however often Apply runs. */
  lemma StubbornUnitNeverSettles(k: Kernel, h: Host, u: string, n: nat)
    requires Stubborn(k, u) && Listed(h, u)
    ensures SwapCheck(Times(SwapApplier(k), h, n)) == Checked(WouldChange, false)
  {
    var step := SwapApplier(k);
    var inv := (x: Host) => Listed(x, u);
    forall x | inv(x) ensures inv(step(x)) { ListedStays(k, x, u); }
    TimesKeep(step, h, n, inv);
    ListedDrifts(Times(step, h, n), u);
  }

  /** A systemd whose listing stays as it is, whatever is switched off or masked. */
  function StillListing(k: Kernel): Kernel {
    k.(mask := (text: string, unit: string) => text, swapoffUnits := (text: string) => text)
  }

  lemma UnitLine(u: string, rest: string)
    requires Word(u) && Free(rest, Only('\n'))
    ensures u in Units(u + " " + rest)
  {
    var line := u + " " + rest;
    assert line == u + [' '] + rest;
    FieldsWord(u);
    FieldsConcat(u, ' ', rest);
    FreeConcat(u, " ", Only('\n'));
    FreeConcat(u + " ", rest, Only('\n'));
    SplitOnFree(line, Only('\n'));
    assert FirstFields([line]) == FirstOf(line) + FirstFields([]);
  }

  /** On it, any unit on any host that can list units and read /proc/swaps: no number of Applies settles swap. */
  lemma StillListedNeverSettles(k: Kernel, h: Host, u: string, rest: string, n: nat)
    requires Word(u) && Free(rest, Only('\n')) && LIST_UNITS !in h.broken && PROC_SWAPS !in h.unreadable
    ensures SwapCheck(Times(SwapApplier(StillListing(k)), h.(swapUnits := u + " " + rest), n)) == Checked(WouldChange, false)
  {
    UnitLine(u, rest);
    StubbornUnitNeverSettles(StillListing(k), h.(swapUnits := u + " " + rest), u, n);
  }

  /** And one whose listing swapoff empties: there swap settles although masking changes nothing. */
  lemma SwapoffAloneSettles(k: Kernel, h: Host)
    requires (forall text, u :: k.mask(text, u) == text) && (forall text :: Units(k.swapoffUnits(text)) == []) && SwapoffWorks(k)
    requires ActiveDevices(h.procSwaps) != [] && SwapApply(k, h).ok
    ensures SwapCheck(SwapApply(k, h).state) == Checked(Unchanged, false)
  {
    SwapSettlesIff(k, h);
  }

  // ---- mounts
  // ---- mounts

  predicate MountLine(line: string, path: string, fstype: string) {
    var fields := Fields(line);
    |fields| >= 3 && fields[1] == path && fields[2] == fstype
  }

  predicate Mounted(text: string, path: string, fstype: string) {
    exists line :: line in Lines(text) && MountLine(line, path, fstype)
  }

  method IsMounted(text: string, path: string, fstype: string) returns (found: bool)
    ensures found <==> Mounted(text, path, fstype)
  {
    var lines := Lines(text);
    for i := 0 to |lines|
      invariant forall j :: 0 <= j < i ==> !MountLine(lines[j], path, fstype)
    {
      if MountLine(lines[i], path, fstype) { return true; }
    }
    return false;
  }

  function MountArgs(m: MountSpec): seq<string> { [m.device, m.path, m.fstype, m.options] }

  function MountCommand(m: MountSpec): seq<string> {
    ["mount"] + (if m.options != "" then ["-o", m.options] else []) + ["-t", m.fstype, m.device, m.path]
  }

  function MountCheck(m: MountSpec, h: Host): Checked {
    if PROC_MOUNTS in h.unreadable then Checked(Failed, true)
    else
      var clean := Mounted(h.procMounts, m.path, m.fstype) && (m.fstabPersist ==> HasEntry(ReadOrEmpty(h, FSTAB), m.path));
      Checked(if clean then Unchanged else WouldChange, false)
  }

  method MountCheckNode(m: MountSpec, node: Node<Host>) returns (res: Checked)
    ensures res == MountCheck(m, node.host)
  {
    if PROC_MOUNTS in node.host.unreadable { return Checked(Failed, true); }
    var mounted := IsMounted(node.host.procMounts, m.path, m.fstype);
    var fstabDrift := false;
    if m.fstabPersist {
      var present := FstabLineExists(ReadOrEmpty(node.host, FSTAB), m.path);
      fstabDrift := !present;
    }
    res := Checked(if mounted && !fstabDrift then Unchanged else WouldChange, false);
  }

  function PersistStep(m: MountSpec, h: Host): Applied<Host> {
    match ReadFile(h, FSTAB)
    case ReadError => Applied(h, false)
    case _ =>
      var text := ReadOrEmpty(h, FSTAB);
      if HasEntry(text, m.path) then Applied(h, true) else ReplaceFstab(h, AppendEntry(text, m))
  }

  function MountStep(k: Kernel, m: MountSpec, h: Host): Applied<Host> {
    if Mounted(h.procMounts, m.path, m.fstype) then Applied(h, true)
    else if m.path in h.unwritable || MountCommand(m) in h.broken then Applied(h, false)
    else Applied(h.(procMounts := k.mount(h.procMounts, MountArgs(m))), true)
  }

  function MountApply(k: Kernel, m: MountSpec, h: Host): Applied<Host> {
    if PROC_MOUNTS in h.unreadable then Applied(h, false)
    else
      var mounted := MountStep(k, m, h);
      if !mounted.ok || !m.fstabPersist then mounted else PersistStep(m, mounted.state)
  }

  method MountApplyNode(k: Kernel, m: MountSpec, node: Node<Host>) returns (ok: bool)
    modifies node
    ensures Applied(node.host, ok) == MountApply(k, m, old(node.host))
  {
    if PROC_MOUNTS in node.host.unreadable { return false; }
    var mounted := IsMounted(node.host.procMounts, m.path, m.fstype);
    if !mounted {
      if m.path in node.host.unwritable { return false; }
      if MountCommand(m) in node.host.broken { return false; }
      node.host := node.host.(procMounts := k.mount(node.host.procMounts, MountArgs(m)));
    }
    ok := true;
    if m.fstabPersist { ok := PersistFstabNode(m, node); }
  }

  method PersistFstabNode(m: MountSpec, node: Node<Host>) returns (ok: bool)
    requires m.fstabPersist
    modifies node
    ensures Applied(node.host, ok) == PersistStep(m, old(node.host))
  {
    if ReadFile(node.host, FSTAB) == ReadError { return false; }
    var existing := ReadOrEmpty(node.host, FSTAB);
    var present := FstabLineExists(existing, m.path);
    if present { return true; }
    var b := Backup(node.host);
    node.host := b.state;
    if !b.ok { return false; }
    var content := PersistFstab(existing, m);
    var written := WriteFile(node.host, FSTAB, content);
    node.host := written.state;
    ok := written.ok;
  }

  // ---- what Check and Apply of a mount mean

  /** Said of the lines: /proc/mounts has one with the path and the type in their places, and, if asked for, a readable
      fstab has one outside comments with the path in its place. */
  ghost predicate MountInPlace(m: MountSpec, h: Host) {
    && (exists line :: line in Split(h.procMounts, '\n') && var fields := Fields(line);
          |fields| >= 3 && fields[1] == m.path && fields[2] == m.fstype)
    && (m.fstabPersist ==>
          && FSTAB in h.files && FSTAB !in h.unreadable
          && exists line :: line in Split(h.files[FSTAB], '\n') && var fields := Fields(line);
               |fields| >= 2 && !HasPrefix(fields[0], "#") && fields[1] == m.path)
  }

  lemma EntryIff(text: string, path: string)
    ensures HasEntry(text, path) <==> exists line :: line in Split(text, '\n') && var fields := Fields(line);
      |fields| >= 2 && !HasPrefix(fields[0], "#") && fields[1] == path
    ensures !HasEntry("", path)
  {
    forall line ensures EntryFor(line, path) <==> var fields := Fields(line); |fields| >= 2 && !HasPrefix(fields[0], "#") && fields[1] == path {
      ClassifiersByFields(line, path);
    }
    assert Split("", '\n') == [""];
    BlankIsNoEntry(path);
  }

  lemma MountedIff(text: string, m: MountSpec)
    ensures Mounted(text, m.path, m.fstype) <==> exists line :: line in Split(text, '\n') && var fields := Fields(line);
      |fields| >= 3 && fields[1] == m.path && fields[2] == m.fstype
  {
    forall line ensures MountLine(line, m.path, m.fstype) <==>
      var fields := Fields(line); |fields| >= 3 && fields[1] == m.path && fields[2] == m.fstype {}
  }

  lemma MountCheckIff(m: MountSpec, h: Host)
    ensures MountCheck(m, h) == Checked(Failed, true) <==> PROC_MOUNTS in h.unreadable
    ensures MountCheck(m, h) == Checked(Unchanged, false) <==> PROC_MOUNTS !in h.unreadable && MountInPlace(m, h)
    ensures MountCheck(m, h) == Checked(WouldChange, false) <==> PROC_MOUNTS !in h.unreadable && !MountInPlace(m, h)
  {
    EntryIff(ReadOrEmpty(h, FSTAB), m.path);
    MountedIff(h.procMounts, m);
  }

  /** What a successful Apply has done: run mount with the device, path, type and options unless the path was mounted with
      the type, and, if asked for, added the entry to fstab unless one was there. */
  lemma MountApplied(k: Kernel, m: MountSpec, h: Host)
    requires MountApply(k, m, h).ok
    ensures var h' := MountApply(k, m, h).state;
      var mounted := exists line :: line in Split(h.procMounts, '\n') && var fields := Fields(line);
        |fields| >= 3 && fields[1] == m.path && fields[2] == m.fstype;
      && h'.procMounts == (if mounted then h.procMounts else k.mount(h.procMounts, [m.device, m.path, m.fstype, m.options]))
      && (m.fstabPersist ==> ReadOrEmpty(h', FSTAB) == PersistMount(ReadOrEmpty(h, FSTAB), m))
      && (!m.fstabPersist ==> h'.files == h.files)
  {
    MountedIff(h.procMounts, m);
    MountStepEffect(k, m, h);
    if m.fstabPersist { PersistFrame(m, MountStep(k, m, h).state); }
  }

  /** Apply succeeds exactly when /proc/mounts reads, an unmounted path can be made and mounted, and fstab, if it is to have
      the entry, reads and has it or can be backed up and written. */
  lemma MountSucceedsIff(k: Kernel, m: MountSpec, h: Host)
    ensures MountApply(k, m, h).ok <==>
      && PROC_MOUNTS !in h.unreadable
      && (!Mounted(h.procMounts, m.path, m.fstype) ==> m.path !in h.unwritable && MountCommand(m) !in h.broken)
      && (m.fstabPersist ==>
            && FSTAB !in h.unreadable
            && (!HasEntry(ReadOrEmpty(h, FSTAB), m.path) ==> CanBackUp(h) && FSTAB !in h.unwritable))
  {
    MountStepEffect(k, m, h);
    PersistSucceedsIff(m, MountStep(k, m, h).state);
  }

  lemma PersistSucceedsIff(m: MountSpec, h: Host)
    ensures PersistStep(m, h).ok <==>
      FSTAB !in h.unreadable && (!HasEntry(ReadOrEmpty(h, FSTAB), m.path) ==> CanBackUp(h) && FSTAB !in h.unwritable)
  {
    var text := ReadOrEmpty(h, FSTAB);
    assert |AppendEntry(text, m)| > |text|;
    if FSTAB !in h.unreadable && !HasEntry(text, m.path) { ReplaceSucceedsIff(h, AppendEntry(text, m)); }
  }

  /** Where the mount command fails, an unmounted path stays as it is; the command carries the options, if there are any,
      then the type, the device and the path. */
  lemma MountCommandFails(k: Kernel, m: MountSpec, h: Host)
    requires PROC_MOUNTS !in h.unreadable && !Mounted(h.procMounts, m.path, m.fstype)
    requires m.options != "" ==> ["mount", "-o", m.options, "-t", m.fstype, m.device, m.path] in h.broken
    requires m.options == "" ==> ["mount", "-t", m.fstype, m.device, m.path] in h.broken
    ensures MountApply(k, m, h) == Applied(h, false)
  {
    assert ["mount"] + ["-o", m.options] + ["-t", m.fstype, m.device, m.path] == ["mount", "-o", m.options, "-t", m.fstype, m.device, m.path];
    assert ["mount"] + [] + ["-t", m.fstype, m.device, m.path] == ["mount", "-t", m.fstype, m.device, m.path];
  }

  // ---- when a mount settles, and what it leaves alone

  /** Whatever the outcome, a mount touches nothing but the mount table, fstab and its backup, and leaves each of the
      first two as it was or as asked for. */
  lemma MountFrame(k: Kernel, m: MountSpec, h: Host)
    ensures var h' := MountApply(k, m, h).state;
      && h' == h.(procMounts := h'.procMounts, files := h'.files) && SameElsewhere(h', h, {FSTAB, BACKUP})
      && (h'.procMounts == h.procMounts || h'.procMounts == k.mount(h.procMounts, MountArgs(m)))
      && (ReadOrEmpty(h', FSTAB) == ReadOrEmpty(h, FSTAB) || ReadOrEmpty(h', FSTAB) == PersistMount(ReadOrEmpty(h, FSTAB), m))
  {
    MountStepEffect(k, m, h);
    if m.fstabPersist { PersistFrame(m, MountStep(k, m, h).state); }
  }

  lemma MountStepEffect(k: Kernel, m: MountSpec, h: Host)
    ensures var s := MountStep(k, m, h);
      && s.state == h.(procMounts := s.state.procMounts)
      && (s.state.procMounts == h.procMounts || s.state.procMounts == k.mount(h.procMounts, MountArgs(m)))
      && (s.ok ==> Mounted(h.procMounts, m.path, m.fstype) || s.state.procMounts == k.mount(h.procMounts, MountArgs(m)))
      && (Mounted(h.procMounts, m.path, m.fstype) ==> s.state.procMounts == h.procMounts)
  {}

  lemma PersistFrame(m: MountSpec, h: Host)
    ensures var h' := PersistStep(m, h).state;
      && h' == h.(files := h'.files) && SameElsewhere(h', h, {FSTAB, BACKUP})
      && (ReadOrEmpty(h', FSTAB) == ReadOrEmpty(h, FSTAB)
          || (!HasEntry(ReadOrEmpty(h, FSTAB), m.path) && ReadOrEmpty(h', FSTAB) == AppendEntry(ReadOrEmpty(h, FSTAB), m)))
    ensures PersistStep(m, h).ok && m.fstabPersist ==> ReadOrEmpty(PersistStep(m, h).state, FSTAB) == PersistMount(ReadOrEmpty(h, FSTAB), m)
  {
    ReplaceFrame(h, AppendEntry(ReadOrEmpty(h, FSTAB), m));
  }

  /** A successful Apply leaves the mount in the table and, if asked, in fstab. */
  lemma MountSettles(k: Kernel, m: MountSpec, h: Host)
    requires (m.fstabPersist ==> WellFormed(m)) && forall text :: Mounted(k.mount(text, MountArgs(m)), m.path, m.fstype)
    requires MountApply(k, m, h).ok
    ensures MountCheck(m, MountApply(k, m, h).state) == Checked(Unchanged, false)
  {
    var mounted := MountStep(k, m, h).state;
    MountStepEffect(k, m, h);
    if m.fstabPersist {
      PersistFrame(m, mounted);
      PersistKeeps(ReadOrEmpty(h, FSTAB), m, m.path);
    }
  }
}
