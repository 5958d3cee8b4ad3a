/** Writing a file by temporary file and rename, and the one-time backup, as steps any of which may fail. */
module AtomicFile {
  import opened Numbers

  /** Everything a reader of the disk can see: contents by path. */
  type Disk = map<string, string>

  function Lookup(d: Disk, path: string): Option<string> { if path in d then Some(d[path]) else None }

  /** Which steps fail; `kept` is how much of the content a failing write leaves behind. */
  datatype Faults = Faults(
    read: bool, mkdir: bool, create: bool, write: bool, chmod: bool, close: bool, rename: bool, remove: bool,
    kept: nat)

  datatype Result = Wrote(changed: bool) | Failed

  /** The disk after every step, oldest first, and what the call returns. */
  datatype Trace = Trace(disks: seq<Disk>, result: Result) {
    function Final(): Disk
      requires disks != []
    {
      disks[|disks| - 1]
    }
  }

  function Prefix(s: string, k: nat): string { if k < |s| then s[..k] else s }

  /** The deferred removal of the temporary file. */
  function CleanUp(d: Disk, tmp: string, f: Faults): Disk { if f.remove then d else d - {tmp} }

  /** `WriteFileIfChanged`, with the name the system picked for the temporary file. */
  function WriteTrace(d: Disk, path: string, content: string, tmp: string, f: Faults): (t: Trace)
    ensures t.disks != [] && t.disks[0] == d
  {
    if f.read then Trace([d], Failed)
    else if Lookup(d, path) == Some(content) then Trace([d], Wrote(false))
    else if f.mkdir || f.create then Trace([d], Failed)
    else
      var created := d[tmp := ""];
      var written := d[tmp := if f.write then Prefix(content, f.kept) else content];
      if f.write || f.chmod || f.close || f.rename then
        Trace([d, created, written, CleanUp(written, tmp, f)], Failed)
      else
        var renamed := (written - {tmp})[path := content];
        Trace([d, created, written, renamed, CleanUp(renamed, tmp, f)], Wrote(true))
  }

  /** `now` differs from `before` at most in the temporary file and in `path`, which is whole: old or new. */
  ghost predicate Whole(before: Disk, now: Disk, path: string, content: string, tmp: string) {
    && (Lookup(now, path) == Lookup(before, path) || Lookup(now, path) == Some(content))
    && forall p :: p != path && p != tmp ==> Lookup(now, p) == Lookup(before, p)
  }

  /** At no step, whatever fails, does the target hold anything but its whole old or whole new content. */
  lemma NeverTorn(d: Disk, path: string, content: string, tmp: string, f: Faults)
    requires tmp !in d && tmp != path
    ensures var t := WriteTrace(d, path, content, tmp, f);
      && (forall i :: 0 <= i < |t.disks| ==> Whole(d, t.disks[i], path, content, tmp))
      && (forall i, j :: 0 <= i <= j < |t.disks| && Lookup(t.disks[i], path) == Some(content) ==>
            Lookup(t.disks[j], path) == Some(content))
  {
    var t := WriteTrace(d, path, content, tmp, f);
    forall i | 0 <= i < |t.disks| ensures Whole(d, t.disks[i], path, content, tmp) {}
  }

  /** What a caller may conclude from the result, and exactly when the temporary file is left behind. */
  lemma WriteOutcome(d: Disk, path: string, content: string, tmp: string, f: Faults)
    requires tmp !in d && tmp != path
    ensures var t := WriteTrace(d, path, content, tmp, f);
      && (t.result == Failed <==>
            (f.read || (Lookup(d, path) != Some(content) && (f.mkdir || f.create || f.write || f.chmod || f.close || f.rename))))
      && (t.result == Failed ==> Lookup(t.Final(), path) == Lookup(d, path))
      && (t.result.Wrote? ==> t.Final() == d[path := content])
      && (t.result.Wrote? ==> (t.result.changed <==> Lookup(d, path) != Some(content)))
      && (tmp in t.Final() <==> t.result == Failed && |t.disks| > 1 && f.remove)
      && (!f.remove && t.result == Failed ==> t.Final() == d)
  {
    var t := WriteTrace(d, path, content, tmp, f);
    if t.result.Wrote? {
      if t.result.changed {
        assert (d[tmp := content] - {tmp})[path := content] == d[path := content];
        assert d[path := content] - {tmp} == d[path := content];
      } else {
        assert d[path := content] == d;
      }
    } else if |t.disks| > 1 && !f.remove {
      assert t.disks[2] - {tmp} == d;
    }
  }

  /** After a successful write the same write finds nothing to do, whichever other steps would fail. */
  lemma SecondWriteIsNoop(d: Disk, path: string, content: string, tmp: string, f: Faults, tmp': string, f': Faults)
    requires tmp !in d && tmp != path && !f'.read
    requires WriteTrace(d, path, content, tmp, f).result.Wrote?
    ensures var d' := WriteTrace(d, path, content, tmp, f).Final();
      WriteTrace(d', path, content, tmp', f') == Trace([d'], Wrote(false))
  {
    WriteOutcome(d, path, content, tmp, f);
  }

  /** The disk, with a ghost record of every state it went through: where a crash could leave it. */
  class FileSystem {
    var disk: Disk
    ghost var history: seq<Disk>

    ghost predicate Recorded()
      reads this
    {
      history != [] && history[|history| - 1] == disk
    }

    constructor (d: Disk)
      ensures disk == d && history == [d]
    {
      disk := d;
      history := [d];
    }

    method Put(path: string, content: string)
      modifies this
      ensures disk == old(disk)[path := content] && history == old(history) + [disk]
    {
      disk := disk[path := content];
      history := history + [disk];
    }

    method Remove(path: string, fails: bool)
      modifies this
      ensures disk == (if fails then old(disk) else old(disk) - {path}) && history == old(history) + [disk]
    {
      if !fails { disk := disk - {path}; }
      history := history + [disk];
    }

    method Rename(from: string, to: string)
      requires from in disk
      modifies this
      ensures disk == (old(disk) - {from})[to := old(disk)[from]] && history == old(history) + [disk]
    {
      disk := (disk - {from})[to := disk[from]];
      history := history + [disk];
    }

    method WriteFileIfChanged(path: string, content: string, tmp: string, f: Faults) returns (result: Result)
      requires Recorded() && tmp !in disk && tmp != path
      modifies this
      ensures Recorded()
      ensures var t := WriteTrace(old(disk), path, content, tmp, f);
        result == t.result && disk == t.Final() && history == old(history) + t.disks[1..]
      ensures forall i :: |old(history)| <= i < |history| ==> Whole(old(disk), history[i], path, content, tmp)
    {
      NeverTorn(disk, path, content, tmp, f);
      if f.read { return Failed; }
      if path in disk && disk[path] == content { return Wrote(false); }
      if f.mkdir { return Failed; }
      if f.create { return Failed; }
      result := WriteThroughTemp(path, content, tmp, f);
      assert forall i :: |old(history)| <= i < |history| ==>
        history[i] == WriteTrace(old(disk), path, content, tmp, f).disks[i - |old(history)| + 1];
    }

    /** The steps from creating the temporary file on. */
    method WriteThroughTemp(path: string, content: string, tmp: string, f: Faults) returns (result: Result)
      requires Recorded() && tmp !in disk && tmp != path
      requires !f.read && !f.mkdir && !f.create && Lookup(disk, path) != Some(content)
      modifies this
      ensures Recorded()
      ensures var t := WriteTrace(old(disk), path, content, tmp, f);
        result == t.result && disk == t.Final() && history == old(history) + t.disks[1..]
    {
      Put(tmp, "");
      label Created:
      Put(tmp, if f.write then Prefix(content, f.kept) else content);
      assert disk == old(disk)[tmp := if f.write then Prefix(content, f.kept) else content];
      assert history == old(history) + [old@Created(disk), disk];
      label Written:
      if f.write || f.chmod || f.close || f.rename {
        Remove(tmp, f.remove);
        assert history == old(history) + [old@Created(disk), old@Written(disk), disk];
        return Failed;
      }
      Rename(tmp, path);
      label Renamed:
      Remove(tmp, f.remove);
      assert history == old(history) + [old@Created(disk), old@Written(disk), old@Renamed(disk), disk];
      return Wrote(true);
    }

    /** The copy is written in place: opening it empties it, and a failing write leaves it cut short. */
    method BackupFile(path: string, f: BackupFaults) returns (ok: bool)
      requires Recorded()
      modifies this
      ensures Recorded()
      ensures (disk, ok) == BackupStep(old(disk), path, f)
      ensures history == old(history) + BackupDisks(old(disk), path, f)
    {
      if f.read { return false; }
      if path !in disk { return true; }
      if !f.stat && BackupPath(path) in disk { return true; }
      if f.open { return false; }
      var data := disk[path];
      Put(BackupPath(path), "");
      label Opened:
      Put(BackupPath(path), if f.write then Prefix(data, f.kept) else data);
      assert disk == old(disk)[BackupPath(path) := if f.write then Prefix(data, f.kept) else data];
      assert history == old(history) + [old@Opened(disk), disk];
      ok := !f.write;
    }
  }

  // ---- the one-time backup

  /** Failures of reading the original, of looking for a backup, of opening it, and of writing it. */
  datatype BackupFaults = BackupFaults(read: bool, stat: bool, open: bool, write: bool, kept: nat)

  function BackupPath(path: string): (b: string)
    ensures b != path
  {
    var b := path + ".node-configurator.orig";
    assert |b| > |path|;
    b
  }

  /** `BackupFile`: the disk afterwards, and whether the call succeeded. */
  function BackupStep(d: Disk, path: string, f: BackupFaults): (Disk, bool) {
    if f.read then (d, false)
    else if path !in d then (d, true)
    else if !f.stat && BackupPath(path) in d then (d, true)
    else if f.open then (d, false)
    else (d[BackupPath(path) := if f.write then Prefix(d[path], f.kept) else d[path]], !f.write)
  }

  /** The disks it goes through after the first: none, or the opened, empty backup and then what was written of it. */
  function BackupDisks(d: Disk, path: string, f: BackupFaults): seq<Disk> {
    if f.read || path !in d || (!f.stat && BackupPath(path) in d) || f.open then []
    else [d[BackupPath(path) := ""], BackupStep(d, path, f).0]
  }

  /** What the call leaves: a backup of an existing file is made exactly when none is seen, and the call succeeds exactly
      when there was nothing to do or the copy was written whole. */
  lemma BackupOutcome(d: Disk, path: string, f: BackupFaults)
    ensures var (d', ok) := BackupStep(d, path, f); var b := BackupPath(path);
      var needed := path in d && (f.stat || b !in d);
      && (f.read ==> !ok && d' == d)
      && (!f.read && !needed ==> ok && d' == d)
      && (!f.read && needed ==> (ok <==> !f.open && !f.write))
      && (ok && needed ==> Lookup(d', b) == Lookup(d, path))
      && (forall p :: p != b ==> Lookup(d', p) == Lookup(d, p))
  {}

  /** Where a crash can leave things: at no moment is anything but the backup touched; a backup that is there and is
      seen stays; one being written is empty, or what the finished call leaves. */
  lemma BackupMoments(d: Disk, path: string, f: BackupFaults, i: nat)
    requires i < |BackupDisks(d, path, f)|
    ensures var now := BackupDisks(d, path, f)[i];
      && (forall p :: p != BackupPath(path) ==> Lookup(now, p) == Lookup(d, p))
      && (f.stat || BackupPath(path) !in d)
      && (Lookup(now, BackupPath(path)) == Some("") || now == BackupStep(d, path, f).0)
      && (i == 1 && !f.write ==> Lookup(now, BackupPath(path)) == Lookup(d, path))
  {
    assert i == 0 || i == 1;
  }
}
