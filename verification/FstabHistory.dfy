/** Any sequence of swap and mount edits of /etc/fstab, and what becomes of the one-time backup. */
module FstabHistory {
  import opened Numbers
  import opened Text
  import opened AtomicFile
  import opened Fstab

  const FSTAB := "/etc/fstab"
  const BACKUP := BackupPath(FSTAB)

  datatype Editor = Swap | Mount(m: MountSpec)

  /** The new text an editor wants, or None when it finds nothing to do. */
  ghost function Change(e: Editor, existing: Option<string>): Option<string> {
    match e
    case Swap =>
      if existing.Some? && HasActiveSwap(existing.value) then Some(CommentSwap(existing.value)) else None
    case Mount(m) =>
      var text := if existing.Some? then existing.value else "";
      if HasEntry(text, m.path) then None else Some(AppendEntry(text, m))
  }

  /** What may fail in one edit; `tmp` is the name tried for the temporary file. */
  datatype EditFaults = EditFaults(read: bool, backup: BackupFaults, write: Faults, tmp: string)

  predicate Plausible(f: EditFaults) { f.tmp != FSTAB && f.tmp != BACKUP }

  /** Read, decide, back up, write; any failure ends the edit. A taken temporary name counts as one. */
  ghost function EditStep(d: Disk, e: Editor, f: EditFaults): Disk {
    if f.read then d
    else
      match Change(e, Lookup(d, FSTAB))
      case None => d
      case Some(content) =>
        var (backedUp, ok) := BackupStep(d, FSTAB, f.backup);
        if ok then WriteTrace(backedUp, FSTAB, content, f.tmp, f.write.(create := f.write.create || f.tmp in backedUp)).Final()
        else backedUp
  }

  ghost function EditRun(d: Disk, edits: seq<(Editor, EditFaults)>): Disk
    decreases |edits|
  {
    if edits == [] then d else EditRun(EditStep(d, edits[0].0, edits[0].1), edits[1..])
  }

  /** The backup, if there is one, is the original text; if there is none, fstab still is. */
  ghost predicate Preserved(d: Disk, original: string) {
    || Lookup(d, BACKUP) == Some(original)
    || (BACKUP !in d && Lookup(d, FSTAB) == Some(original))
  }

  /** The original text is still in one of the two files. */
  predicate Kept(d: Disk, original: string) { Lookup(d, BACKUP) == Some(original) || Lookup(d, FSTAB) == Some(original) }

  /** The fault pattern can neither miss an existing backup nor truncate a new one. */
  predicate Safe(f: EditFaults) {
    f.read || f.backup.read || f.backup.open || (!f.backup.stat && !f.backup.write)
  }

  lemma EditTouchesOnlyFstab(d: Disk, e: Editor, f: EditFaults)
    requires Plausible(f)
    ensures var backup := Lookup(BackupStep(d, FSTAB, f.backup).0, BACKUP);
      Lookup(EditStep(d, e, f), BACKUP) == if f.read || Change(e, Lookup(d, FSTAB)) == None then Lookup(d, BACKUP) else backup
    ensures BACKUP !in EditStep(d, e, f) ==> Lookup(EditStep(d, e, f), FSTAB) == Lookup(d, FSTAB) || FSTAB !in d
  {
    if !f.read && Change(e, Lookup(d, FSTAB)).Some? {
      WriteKeepsBackup(BackupStep(d, FSTAB, f.backup).0, Change(e, Lookup(d, FSTAB)).value, f);
    }
  }

  lemma WriteKeepsBackup(d: Disk, content: string, f: EditFaults)
    requires Plausible(f)
    ensures var t := WriteTrace(d, FSTAB, content, f.tmp, f.write.(create := f.write.create || f.tmp in d));
      Lookup(t.Final(), BACKUP) == Lookup(d, BACKUP)
  {
    var wf := f.write.(create := f.write.create || f.tmp in d);
    if f.tmp !in d {
      NeverTorn(d, FSTAB, content, f.tmp, wf);
      assert Whole(d, WriteTrace(d, FSTAB, content, f.tmp, wf).Final(), FSTAB, content, f.tmp);
    }
  }

  lemma SafeStep(d: Disk, e: Editor, f: EditFaults, original: string)
    requires Plausible(f) && Safe(f) && Preserved(d, original)
    ensures Preserved(EditStep(d, e, f), original)
    ensures Lookup(d, BACKUP) == Some(original) ==> Lookup(EditStep(d, e, f), BACKUP) == Some(original)
  {
    EditTouchesOnlyFstab(d, e, f);
  }

  /** Over every sequence of edits with safe faults: the backup, once there, is the text before the first edit. */
  lemma {:induction false} BackupIsOriginal(d: Disk, original: string, edits: seq<(Editor, EditFaults)>)
    requires Preserved(d, original)
    requires forall i :: 0 <= i < |edits| ==> Plausible(edits[i].1) && Safe(edits[i].1)
    ensures var d' := EditRun(d, edits);
      && Preserved(d', original)
      && (Lookup(d', FSTAB) != Some(original) ==> Lookup(d', BACKUP) == Some(original))
      && (Lookup(d, BACKUP) == Some(original) ==> Lookup(d', BACKUP) == Some(original))
    decreases |edits|
  {
    if edits != [] {
      SafeStep(d, edits[0].0, edits[0].1, original);
      forall i | 0 <= i < |edits[1..]| ensures Plausible(edits[1..][i].1) && Safe(edits[1..][i].1) {
        assert edits[1..][i] == edits[i + 1];
      }
      BackupIsOriginal(EditStep(d, edits[0].0, edits[0].1), original, edits[1..]);
    }
  }

  // ---- what unsafe faults do

  /** The edit does not overlook an existing backup. */
  predicate Sees(f: EditFaults) { f.read || f.backup.read || f.backup.open || !f.backup.stat }

  /** A backup, whatever it holds, stays as it is through every sequence of edits that do not overlook it. */
  lemma {:induction false} BackupStays(d: Disk, text: string, edits: seq<(Editor, EditFaults)>)
    requires Lookup(d, BACKUP) == Some(text)
    requires forall x :: x in edits ==> Plausible(x.1) && Sees(x.1)
    ensures Lookup(EditRun(d, edits), BACKUP) == Some(text)
    decreases |edits|
  {
    if edits != [] {
      assert edits[0] in edits;
      EditTouchesOnlyFstab(d, edits[0].0, edits[0].1);
      BackupStays(EditStep(d, edits[0].0, edits[0].1), text, edits[1..]);
    }
  }

  lemma ChangeLengthens(e: Editor, text: string)
    ensures Change(e, Some(text)).Some? ==> |Change(e, Some(text)).value| > |text|
  {
    if e == Swap && HasActiveSwap(text) { CommentSwapLonger(text); }
  }

  predicate AtLeast(d: Disk, n: nat) { FSTAB in d && |d[FSTAB]| >= n }

  /** An edit never shortens fstab, and lengthens it when it completes. */
  lemma EditLengthens(d: Disk, e: Editor, f: EditFaults, n: nat)
    requires Plausible(f) && AtLeast(d, n)
    ensures AtLeast(EditStep(d, e, f), n)
    ensures Completes(d, e, f) ==> AtLeast(EditStep(d, e, f), n + 1)
  {
    ChangeLengthens(e, d[FSTAB]);
    if !f.read && Change(e, Lookup(d, FSTAB)).Some? {
      FstabIsOldOrNew(BackupStep(d, FSTAB, f.backup).0, Change(e, Lookup(d, FSTAB)).value, f);
    }
  }

  lemma FstabIsOldOrNew(d: Disk, content: string, f: EditFaults)
    requires Plausible(f)
    ensures var t := WriteTrace(d, FSTAB, content, f.tmp, f.write.(create := f.write.create || f.tmp in d));
      Lookup(t.Final(), FSTAB) == Lookup(d, FSTAB) || Lookup(t.Final(), FSTAB) == Some(content)
  {
    var wf := f.write.(create := f.write.create || f.tmp in d);
    if f.tmp !in d {
      NeverTorn(d, FSTAB, content, f.tmp, wf);
      assert Whole(d, WriteTrace(d, FSTAB, content, f.tmp, wf).Final(), FSTAB, content, f.tmp);
    }
  }

  lemma {:induction false} RunLengthens(d: Disk, edits: seq<(Editor, EditFaults)>, n: nat)
    requires AtLeast(d, n) && forall x :: x in edits ==> Plausible(x.1)
    ensures AtLeast(EditRun(d, edits), n)
    decreases |edits|
  {
    if edits != [] {
      assert edits[0] in edits;
      EditLengthens(d, edits[0].0, edits[0].1, n);
      RunLengthens(EditStep(d, edits[0].0, edits[0].1), edits[1..], n);
    }
  }

  /** The edit has something to do and its text ends up in fstab. */
  ghost predicate Completes(d: Disk, e: Editor, f: EditFaults) {
    var change := Change(e, Lookup(d, FSTAB));
    change.Some? && Lookup(EditStep(d, e, f), FSTAB) == change
  }

  lemma {:induction false} EditRunConcat(d: Disk, a: seq<(Editor, EditFaults)>, b: seq<(Editor, EditFaults)>)
    ensures EditRun(d, a + b) == EditRun(EditRun(d, a), b)
    decreases |a|
  {
    if a == [] {
      assert a + b == b;
    } else {
      assert (a + b)[0] == a[0] && (a + b)[1..] == a[1..] + b;
      EditRunConcat(EditStep(d, a[0].0, a[0].1), a[1..], b);
    }
  }

  /** The copy is cut short before all of the original is written. */
  predicate Tears(f: EditFaults, original: string) {
    !f.read && !f.backup.read && !f.backup.open && f.backup.write && f.backup.kept < |original|
  }

  lemma TornStep(d: Disk, original: string, e: Editor, f: EditFaults)
    requires Plausible(f) && Tears(f, original) && BACKUP !in d && Lookup(d, FSTAB) == Some(original)
    requires Change(e, Some(original)).Some?
    ensures EditStep(d, e, f) == d[BACKUP := Prefix(original, f.backup.kept)]
  {}

  /** A backup cut short is taken for a complete one ever after. As soon as one later edit completes, among whatever
      others that do not overlook it, the original is in neither file, and stays lost. */
  lemma TornBackupLosesOriginal(d: Disk, original: string, e: Editor, f: EditFaults, before: seq<(Editor, EditFaults)>,
                                g: (Editor, EditFaults), after: seq<(Editor, EditFaults)>)
    requires Plausible(f) && Tears(f, original) && BACKUP !in d && Lookup(d, FSTAB) == Some(original)
    requires Change(e, Some(original)).Some?
    requires forall x :: x in before + [g] + after ==> Plausible(x.1) && Sees(x.1)
    requires Completes(EditRun(EditStep(d, e, f), before), g.0, g.1)
    ensures var end := EditRun(EditStep(d, e, f), before + [g] + after);
      Lookup(end, BACKUP) == Some(Prefix(original, f.backup.kept)) && !Kept(end, original)
  {
    var torn := EditStep(d, e, f);
    var next := EditRun(torn, before);
    TornStep(d, original, e, f);
    BackupStays(torn, Prefix(original, f.backup.kept), before + [g] + after);
    EditRunConcat(torn, before + [g], after);
    EditRunConcat(torn, before, [g]);
    assert forall x :: x in before + [g] + after <==> x in before || x == g || x in after;
    RunLengthens(torn, before, |original|);
    EditLengthens(next, g.0, g.1, |original|);
    OneEdit(next, g);
    RunLengthens(EditStep(next, g.0, g.1), after, |original| + 1);
  }

  lemma OneEdit(d: Disk, x: (Editor, EditFaults))
    ensures EditRun(d, [x]) == EditStep(d, x.0, x.1)
  {
    assert [x][1..] == [];
  }

  const NO_FAULTS := Faults(false, false, false, false, false, false, false, false, 0)

  /** An edit in which nothing fails. */
  function Faultless(tmp: string): EditFaults { EditFaults(false, BackupFaults(false, false, false, false, 0), NO_FAULTS, tmp) }

  /** With a fresh temporary name it completes whenever it has something to do. */
  lemma FaultlessCompletes(d: Disk, e: Editor, tmp: string)
    requires tmp !in d && tmp != FSTAB && tmp != BACKUP && Change(e, Lookup(d, FSTAB)).Some?
    ensures Completes(d, e, Faultless(tmp))
  {
    var f := Faultless(tmp);
    var content := Change(e, Lookup(d, FSTAB)).value;
    WriteOutcome(BackupStep(d, FSTAB, f.backup).0, FSTAB, content, tmp, NO_FAULTS);
  }

  /** No disk, editor, original and later safe edits exist with which this fault pattern makes the original disappear
      from both files. */
  ghost predicate Harmless(f: EditFaults) {
    forall d: Disk, e: Editor, original: string, later: seq<(Editor, EditFaults)> ::
      Preserved(d, original) && AllSafe(later) ==> Kept(EditRun(EditStep(d, e, f), later), original)
  }

  predicate AllSafe(edits: seq<(Editor, EditFaults)>) { forall i :: 0 <= i < |edits| ==> Plausible(edits[i].1) && Safe(edits[i].1) }

  function Xs(k: nat): (s: string)
    ensures |s| == k && Free(s, White) && Free(s, Only('\n')) && forall i :: 0 <= i < k ==> s[i] == 'x'
  {
    seq(k, i => 'x')
  }

  lemma OneWordNamesNoMount(k: nat, path: string)
    ensures !HasEntry(Xs(k + 1), path)
  {
    SplitOnFree(Xs(k + 1), Only('\n'));
    FieldsWord(Xs(k + 1));
    ClassifiersByFields(Xs(k + 1), path);
  }

  /** The shortest such loss: the failing edit, then the same edit without a fault. */
  lemma RetryLosesOriginal(f: EditFaults, m: MountSpec)
    requires Plausible(f) && !f.read && !f.backup.read && !f.backup.open && f.backup.write
    ensures var original := Xs(f.backup.kept + 1); var d: Disk := map[FSTAB := original];
      Preserved(d, original) && !Kept(EditRun(EditStep(d, Mount(m), f), [(Mount(m), Faultless(""))]), original)
  {
    var original := Xs(f.backup.kept + 1);
    var d: Disk := map[FSTAB := original];
    OneWordNamesNoMount(f.backup.kept, m.path);
    TornStep(d, original, Mount(m), f);
    var g := (Mount(m), Faultless(""));
    FaultlessIsSafe("");
    FaultlessCompletes(EditStep(d, Mount(m), f), Mount(m), "");
    TornBackupLosesOriginal(d, original, Mount(m), f, [], g, []);
    assert [] + [g] + [] == [g];
  }

  /** A failing look-up of the backup makes the tool copy the edited file over it: unless that file or the new edit
      happens to be the original, the original is in neither file. */
  lemma MissedBackupIsOverwritten(d: Disk, text: string, original: string, e: Editor, f: EditFaults)
    requires Plausible(f) && !f.read && !f.backup.read && !f.backup.open && !f.backup.write && f.backup.stat
    requires Lookup(d, FSTAB) == Some(text) && Lookup(d, BACKUP) == Some(original)
    requires Change(e, Some(text)).Some? && original != text && original != Change(e, Some(text)).value
    ensures Preserved(d, original) && Lookup(EditStep(d, e, f), BACKUP) == Some(text) && !Kept(EditStep(d, e, f), original)
  {
    EditTouchesOnlyFstab(d, e, f);
    FstabIsOldOrNew(BackupStep(d, FSTAB, f.backup).0, Change(e, Some(text)).value, f);
  }

  lemma MountWantsEntry(m: MountSpec)
    ensures Change(Mount(m), Some(Xs(1))).Some? && |Change(Mount(m), Some(Xs(1))).value| > 2
  {
    OneWordNamesNoMount(0, m.path);
    assert Xs(1)[0] == 'x';
    EntryAdded(Xs(1), m);
  }

  lemma OverlookedIsLost(f: EditFaults, m: MountSpec)
    requires Plausible(f) && !f.read && !f.backup.read && !f.backup.open && !f.backup.write && f.backup.stat
    ensures !Harmless(f)
  {
    MountWantsEntry(m);
    var text, original := Xs(1), Xs(2);
    assert |text| == 1 && |original| == 2;
    var d: Disk := map[FSTAB := text, BACKUP := original];
    MissedBackupIsOverwritten(d, text, original, Mount(m), f);
    Loses(d, Mount(m), f, original, []);
  }

  lemma EntryAdded(text: string, m: MountSpec)
    requires text != "" && !HasSuffix(text, "\n")
    ensures |AppendEntry(text, m)| > |text| + 1
  {}

  lemma FaultlessIsSafe(tmp: string)
    requires tmp != FSTAB && tmp != BACKUP
    ensures Plausible(Faultless(tmp)) && Safe(Faultless(tmp)) && Sees(Faultless(tmp))
  {}

  lemma Loses(d: Disk, e: Editor, f: EditFaults, original: string, later: seq<(Editor, EditFaults)>)
    requires Preserved(d, original) && AllSafe(later) && !Kept(EditRun(EditStep(d, e, f), later), original)
    ensures !Harmless(f)
  {}

  /** The exact condition: a fault pattern can never make the original disappear iff it is safe. */
  lemma HarmlessIffSafe(f: EditFaults)
    requires Plausible(f)
    ensures Harmless(f) <==> Safe(f)
  {
    if Safe(f) {
      forall d: Disk, e: Editor, original: string, later: seq<(Editor, EditFaults)> | Preserved(d, original) && AllSafe(later)
        ensures Kept(EditRun(EditStep(d, e, f), later), original)
      {
        SafeStep(d, e, f, original);
        BackupIsOriginal(EditStep(d, e, f), original, later);
      }
    } else {
      var m := MountSpec("", "", "", "", "", true);
      var e := Mount(m);
      if f.backup.write {
        RetryLosesOriginal(f, m);
        var later := [(e, Faultless(""))];
        FaultlessIsSafe("");
        Loses(map[FSTAB := Xs(f.backup.kept + 1)], e, f, Xs(f.backup.kept + 1), later);
      } else {
        OverlookedIsLost(f, m);
      }
    }
  }
}
