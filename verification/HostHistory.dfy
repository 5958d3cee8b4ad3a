/** The fstab edits of the swap and mount resources as steps of a history, and what whole runs do to the one-time backup. */
module HostHistory {
  import opened Numbers
  import opened Text
  import opened Engine
  import opened HostState
  import opened Fstab
  import opened FstabHistory
  import opened Sysctl
  import opened KernelModules
  import opened SwapMount
  import opened HostUnits
  import opened Convergence
  import AtomicFile

  // ---- the edits as steps of a history

  /** The host's failures, as the faults of one edit. */
  function FaultsOf(h: Host, tmp: string): EditFaults {
    EditFaults(
      FSTAB in h.unreadable, BackupFaultsOf(h),
      AtomicFile.Faults(FSTAB in h.unreadable, false, false, false, false, false, FSTAB in h.unwritable, false, 0), tmp)
  }

  predicate Fresh(h: Host, tmp: string) { tmp !in h.files && tmp != FSTAB && tmp != BACKUP }

  /** The host can neither overlook an existing backup nor cut a new one short. */
  predicate SafeHost(h: Host) {
    FSTAB in h.unreadable || BACKUP in h.unwritable || (BACKUP !in h.unstattable && BACKUP !in h.short)
  }

  lemma FaultsOfAreSafe(h: Host, tmp: string)
    requires Fresh(h, tmp)
    ensures Plausible(FaultsOf(h, tmp)) && (Safe(FaultsOf(h, tmp)) <==> SafeHost(h))
  {}

  lemma ReplaceIsEdit(h: Host, e: Editor, content: string, tmp: string)
    requires Fresh(h, tmp) && FSTAB !in h.unreadable && Change(e, AtomicFile.Lookup(h.files, FSTAB)) == Some(content)
    ensures ReplaceFstab(h, content).state.files == EditStep(h.files, e, FaultsOf(h, tmp))
  {
    var b := Backup(h);
    if b.ok { WriteFileIsTrace(b.state, FSTAB, content, tmp); }
  }

  /** Swap's and a mount's handling of fstab, on any host, are steps of the history of edits. */
  lemma CommentIsEdit(h: Host, tmp: string)
    requires Fresh(h, tmp)
    ensures CommentFstab(h).state.files == EditStep(h.files, Swap, FaultsOf(h, tmp))
  {
    var text := ReadOrEmpty(h, FSTAB);
    if FSTAB !in h.unreadable && FSTAB in h.files && HasActiveSwap(text) { ReplaceIsEdit(h, Swap, CommentSwap(text), tmp); }
  }

  lemma PersistIsEdit(m: MountSpec, h: Host, tmp: string)
    requires Fresh(h, tmp)
    ensures PersistStep(m, h).state.files == EditStep(h.files, Mount(m), FaultsOf(h, tmp))
  {
    var text := ReadOrEmpty(h, FSTAB);
    if FSTAB !in h.unreadable && !HasEntry(text, m.path) { ReplaceIsEdit(h, Mount(m), AppendEntry(text, m), tmp); }
  }

  lemma {:induction false} LongerThanAll(names: set<string>) returns (n: nat)
    ensures forall name :: name in names ==> |name| < n
  {
    if names == {} {
      n := 0;
    } else {
      var name :| name in names;
      var rest := LongerThanAll(names - {name});
      n := if rest > |name| then rest else |name| + 1;
      assert forall x :: x in names ==> x == name || x in names - {name};
    }
  }

  lemma FreshName(h: Host) returns (tmp: string)
    ensures Fresh(h, tmp)
  {
    var n := LongerThanAll(h.files.Keys + {FSTAB, BACKUP});
    tmp := Xs(n);
  }

  /** What becomes of the two fstab files: the invariant `Preserved`, and a backup is never replaced. */
  ghost predicate KeepsOriginal(before: Host, after: Host) {
    && (forall original :: Preserved(before.files, original) ==> Preserved(after.files, original))
    && (BACKUP in before.files ==> AtomicFile.Lookup(after.files, BACKUP) == AtomicFile.Lookup(before.files, BACKUP))
  }

  lemma EditKeepsOriginal(h: Host, e: Editor, h': Host, tmp: string)
    requires SafeHost(h) && Fresh(h, tmp) && h'.files == EditStep(h.files, e, FaultsOf(h, tmp))
    ensures KeepsOriginal(h, h')
  {
    FaultsOfAreSafe(h, tmp);
    var f := FaultsOf(h, tmp);
    forall original | Preserved(h.files, original) ensures Preserved(h'.files, original) { SafeStep(h.files, e, f, original); }
    EditTouchesOnlyFstab(h.files, e, f);
  }

  lemma SwapFiles(k: Kernel, h: Host)
    ensures var files := SwapApply(k, h).state.files; files == h.files || files == CommentFstab(SwapOff(k, h).state).state.files
  {
    var edited := CommentFstab(SwapOff(k, h).state).state;
    MaskUnitsFrame(k, SwapUnits(edited), edited);
  }

  lemma CommentKeepsOriginal(h: Host)
    requires SafeHost(h)
    ensures KeepsOriginal(h, CommentFstab(h).state)
  {
    var tmp := FreshName(h);
    CommentIsEdit(h, tmp);
    EditKeepsOriginal(h, Swap, CommentFstab(h).state, tmp);
  }

  lemma SwapKeepsOriginal(k: Kernel, h: Host)
    requires SafeHost(h)
    ensures KeepsOriginal(h, SwapApply(k, h).state)
  {
    SwapFiles(k, h);
    SwapOffFrame(k, h);
    CommentKeepsOriginal(SwapOff(k, h).state);
  }

  lemma MountKeepsOriginal(k: Kernel, m: MountSpec, h: Host)
    requires SafeHost(h)
    ensures KeepsOriginal(h, MountApply(k, m, h).state)
  {
    var mounted := MountStep(k, m, h).state;
    MountStepEffect(k, m, h);
    var tmp := FreshName(mounted);
    PersistIsEdit(m, mounted, tmp);
    EditKeepsOriginal(mounted, Mount(m), PersistStep(m, mounted).state, tmp);
  }

  /** Writing any other file leaves both alone. */
  lemma WriteKeepsOriginal(h: Host, path: string, content: string)
    requires path != FSTAB && path != BACKUP
    ensures KeepsOriginal(h, WriteFile(h, path, content).state)
  {
    WriteFileEffect(h, path, content);
  }

  // ---- whole runs and the original fstab

  lemma SysctlKeepsOriginal(k: Kernel, r: SysctlResource, h: Host)
    requires r.persistFile !in {FSTAB, BACKUP}
    ensures KeepsOriginal(h, r.Apply(k, h).0)
  {
    SysctlFrame(k, r, h);
    ElsewhereKeepsOriginal(h, r.Apply(k, h).0, r.persistFile);
  }

  lemma KmodKeepsOriginal(k: Kernel, r: KernelModuleResource, h: Host)
    requires r.persistFile !in {FSTAB, BACKUP}
    ensures KeepsOriginal(h, r.Apply(k, h).state)
  {
    KmodFrame(k, r, h);
    ElsewhereKeepsOriginal(h, r.Apply(k, h).state, r.persistFile);
  }

  lemma ElsewhereKeepsOriginal(h: Host, h': Host, path: string)
    requires SameElsewhere(h', h, {path}) && path != FSTAB && path != BACKUP
    ensures KeepsOriginal(h, h')
  {
    assert AtomicFile.Lookup(h'.files, FSTAB) == AtomicFile.Lookup(h.files, FSTAB);
    assert AtomicFile.Lookup(h'.files, BACKUP) == AtomicFile.Lookup(h.files, BACKUP);
  }

  /** No rendered file is fstab or its backup. */
  predicate Apart(c: Config) {
    && c.sysctl.persistFile !in {FSTAB, BACKUP} && c.kmod.persistFile !in {FSTAB, BACKUP}
    && forall f :: f in c.dropIns ==> f.path !in {FSTAB, BACKUP}
  }

  /** Neither swap nor a mount gets as far as editing fstab. */
  predicate NoEdits(h: Host) { PROC_SWAPS in h.unreadable && PROC_MOUNTS in h.unreadable }

  lemma StepKeepsOriginal(k: Kernel, c: Config, r: Resource<Host>, h: Host)
    requires Apart(c) && r in Build(k, c) && r.check(h) == Checked(WouldChange, false) && (SafeHost(h) || NoEdits(h))
    ensures KeepsOriginal(h, r.apply(h).state)
  {
    Members(k, c, r);
    LaterMember(k, c, r);
    SysctlKeepsOriginal(k, c.sysctl, h);
    KmodKeepsOriginal(k, c.kmod, h);
    if SafeHost(h) { SwapKeepsOriginal(k, h); }
    if m :| m in c.mounts && r == MountUnit(k, m) { if SafeHost(h) { MountKeepsOriginal(k, m, h); } }
    if f :| f in c.dropIns && r == DropInUnit(f) { WriteKeepsOriginal(h, f.path, f.content); }
  }

  lemma StepKeepsFaults(k: Kernel, c: Config, r: Resource<Host>, h: Host)
    requires r in Build(k, c)
    ensures SameFaults(r.apply(h).state, h)
  {
    Members(k, c, r);
    if r in Later(k, c) { LaterLeavesAlone(k, c, r); }
    SysctlFrame(k, c.sysctl, h);
    KmodFrame(k, c.kmod, h);
  }

  /** Any run of the engine's resources, whatever commands, reads and writes fail, on a host that neither overlooks nor
      cuts short a backup (or that never gets to an edit): the backup, if there is one, is still the original; with
      none, fstab is; and an existing backup is untouched. */
  lemma RunKeepsOriginal(k: Kernel, c: Config, h: Host, mode: Mode)
    requires Apart(c) && (SafeHost(h) || NoEdits(h))
    ensures KeepsOriginal(h, FinalState(Build(k, c), h, mode)) && SameFaults(FinalState(Build(k, c), h, mode), h)
  {
    var inv := (x: Host) => KeepsOriginal(h, x) && SameFaults(x, h);
    forall r, x | r in Build(k, c) && inv(x) && r.check(x) == Checked(WouldChange, false) ensures inv(r.apply(x).state) {
      StepKeepsOriginal(k, c, r, x);
      StepKeepsFaults(k, c, r, x);
    }
    RunKeeps(Build(k, c), h, mode, inv);
  }

  /** So however many times the tool is run there, an edited fstab can be restored. */
  lemma OriginalSurvivesRuns(k: Kernel, c: Config, h: Host, n: nat, original: string)
    requires Apart(c) && (SafeHost(h) || NoEdits(h)) && BACKUP !in h.files && AtomicFile.Lookup(h.files, FSTAB) == Some(original)
    ensures var end := Times((x: Host) => ApplyPass(k, c, x), h, n);
      Preserved(end.files, original) && (AtomicFile.Lookup(end.files, FSTAB) != Some(original) ==> AtomicFile.Lookup(end.files, BACKUP) == Some(original))
  {
    var step := (x: Host) => ApplyPass(k, c, x);
    var inv := (x: Host) => Preserved(x.files, original) && SameFaults(x, h);
    forall x | inv(x) ensures inv(step(x)) { RunKeepsOriginal(k, c, x, ModeApply); }
    TimesKeep(step, h, n, inv);
  }

  // ---- exactly on such hosts

  /** Hosts that fail as `h` does keep the original through every run. */
  ghost predicate AlwaysKeeps(h: Host) {
    forall k: Kernel, c: Config, x: Host, mode: Mode ::
      Apart(c) && SameFaults(x, h) ==> KeepsOriginal(x, FinalState(Build(k, c), x, mode))
  }

  /** A configuration of one resource only: swap, or one mount. */
  function OneEditor(e: Editor): Config {
    Config(SysctlResource("/", map[], ""), KernelModuleResource([], ""), if e == Swap then [] else [e.m], [],
           Parts(false, false, e == Swap, false))
  }

  /** A mount that is kept in fstab. */
  const KEPT := MountSpec("m", "d", "/m", "t", "", true)

  /** The host with nothing left to do but the edit. */
  function OnlyEdit(h: Host, files: AtomicFile.Disk): Host {
    h.(files := files, procMounts := Join(["d", "/m", "t"], " "), procSwaps := "", swapUnits := "")
  }

  lemma KeptIsMounted()
    ensures Mounted(Join(["d", "/m", "t"], " "), KEPT.path, KEPT.fstype)
  {
    var ws := ["d", "/m", "t"];
    assert Word("d") && Word("/m") && Word("t");
    FieldsJoin(ws);
    assert ws[1..] == ["/m", "t"] && ws[1..][1..] == ["t"];
    assert Join(ws, " ") == "d" + " " + ("/m" + " " + "t");
    var line := Join(ws, " ");
    assert Free(line, Only('\n'));
    SplitOnFree(line, Only('\n'));
    assert line in Lines(line);
  }

  predicate Reaches(h: Host, e: Editor) { if e == Swap then PROC_SWAPS !in h.unreadable else PROC_MOUNTS !in h.unreadable }

  lemma OneEditorRun(k: Kernel, h: Host, e: Editor, files: AtomicFile.Disk, tmp: string)
    requires (e == Swap || e == Mount(KEPT)) && Reaches(h, e) && FSTAB !in h.unreadable
    requires Change(e, AtomicFile.Lookup(files, FSTAB)).Some? && Fresh(OnlyEdit(h, files), tmp)
    ensures var x := OnlyEdit(h, files);
      FinalState(Build(k, OneEditor(e)), x, ModeApply).files == EditStep(files, e, FaultsOf(x, tmp))
  {
    var x := OnlyEdit(h, files);
    if e == Swap {
      assert Build(k, OneEditor(e)) == [SwapUnit(k)] && [SwapUnit(k)][1..] == [];
      SwapEditRun(k, x, tmp);
    } else {
      assert MountUnits(k, [KEPT]) == [MountUnit(k, KEPT)] + MountUnits(k, []);
      assert Build(k, OneEditor(e)) == [MountUnit(k, KEPT)] && [MountUnit(k, KEPT)][1..] == [];
      KeptIsMounted();
      PersistIsEdit(KEPT, x, tmp);
    }
  }

  lemma SwapEditRun(k: Kernel, x: Host, tmp: string)
    requires PROC_SWAPS !in x.unreadable && FSTAB !in x.unreadable && x.procSwaps == "" && x.swapUnits == "" && Fresh(x, tmp)
    requires Change(Swap, AtomicFile.Lookup(x.files, FSTAB)).Some?
    ensures StepState(SwapUnit(k), x, ModeApply).files == EditStep(x.files, Swap, FaultsOf(x, tmp))
  {
    assert ActiveDevices("") == [] by { assert Lines("") == [""]; }
    CommentIsEdit(x, tmp);
    CommentFrame(x);
    var edited := CommentFstab(x).state;
    MaskUnitsFrame(k, SwapUnits(edited), edited);
  }

  /** A text longer than `n` that the editor wants to change. */
  function Wanting(e: Editor, n: nat): string { if e == Swap then Join([Xs(n + 1), "x", "swap"], " ") else Xs(n + 1) }

  lemma WantingIsChanged(e: Editor, n: nat)
    requires e == Swap || e == Mount(KEPT)
    ensures |Wanting(e, n)| > n && Change(e, Some(Wanting(e, n))).Some?
  {
    if e == Swap {
      var ws := [Xs(n + 1), "x", "swap"];
      var line := Join(ws, " ");
      assert Word("x") && Word("swap");
      FieldsJoin(ws);
      assert ws[1..] == ["x", "swap"] && ws[1..][1..] == ["swap"];
      assert Join(ws[1..][1..], " ") == "swap";
      assert Join(ws[1..], " ") == "x" + " " + "swap";
      assert line == Xs(n + 1) + " " + ("x" + " " + "swap");
      assert Free(" " + ("x" + " " + "swap"), Only('\n'));
      SplitOnFree(line, Only('\n'));
      ClassifiersByFields(line, "");
      assert line in Lines(line);
    } else {
      OneWordNamesNoMount(n, KEPT.path);
    }
  }

  lemma TornRunLoses(k: Kernel, h: Host, e: Editor)
    requires (e == Swap || e == Mount(KEPT)) && Reaches(h, e) && !SafeHost(h) && BACKUP in h.short
    ensures !AlwaysKeeps(h)
  {
    var text := Wanting(e, h.short[BACKUP]);
    var d: AtomicFile.Disk := map[FSTAB := text];
    var x := OnlyEdit(h, d);
    WantingIsChanged(e, h.short[BACKUP]);
    var tmp := FreshName(x);
    OneEditorRun(k, h, e, d, tmp);
    FaultsOfAreSafe(x, tmp);
    TornStep(d, text, e, FaultsOf(x, tmp));
    var end := FinalState(Build(k, OneEditor(e)), x, ModeApply);
    assert Preserved(x.files, text) && !Preserved(end.files, text);
    assert Apart(OneEditor(e)) && SameFaults(x, h) && !KeepsOriginal(x, end);
  }

  lemma MissedRunLoses(k: Kernel, h: Host, e: Editor)
    requires (e == Swap || e == Mount(KEPT)) && Reaches(h, e) && !SafeHost(h) && BACKUP !in h.short
    ensures !AlwaysKeeps(h)
  {
    var text := Wanting(e, 0);
    var d: AtomicFile.Disk := map[FSTAB := text, BACKUP := ""];
    var x := OnlyEdit(h, d);
    WantingIsChanged(e, 0);
    ChangeLengthens(e, text);
    var tmp := FreshName(x);
    OneEditorRun(k, h, e, d, tmp);
    FaultsOfAreSafe(x, tmp);
    MissedBackupIsOverwritten(d, text, "", e, FaultsOf(x, tmp));
    var end := FinalState(Build(k, OneEditor(e)), x, ModeApply);
    assert AtomicFile.Lookup(end.files, BACKUP) != AtomicFile.Lookup(x.files, BACKUP);
    assert Apart(OneEditor(e)) && SameFaults(x, h) && !KeepsOriginal(x, end);
  }

  /** The exact condition, for runs: a host keeps the original through every run of every configuration iff it neither
      overlooks nor cuts short a backup, or never gets to an edit. */
  lemma AlwaysKeepsIff(k: Kernel, h: Host)
    ensures AlwaysKeeps(h) <==> SafeHost(h) || NoEdits(h)
  {
    if SafeHost(h) || NoEdits(h) {
      forall k: Kernel, c: Config, x: Host, mode: Mode | Apart(c) && SameFaults(x, h)
        ensures KeepsOriginal(x, FinalState(Build(k, c), x, mode))
      {
        RunKeepsOriginal(k, c, x, mode);
      }
    } else {
      var e := if PROC_SWAPS !in h.unreadable then Swap else Mount(KEPT);
      if BACKUP in h.short { TornRunLoses(k, h, e); } else { MissedRunLoses(k, h, e); }
    }
  }
}
