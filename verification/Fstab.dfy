/** The two editors of /etc/fstab: swap comments entries out, mounts append entries. */
module Fstab {
  import opened Numbers
  import opened Text

  // Long literals are written in pieces, here and elsewhere: the verifier reasons about each literal character by character.
  const MARK := "# disabled by " + "node-configurator: "

  datatype MountSpec = MountSpec(
    name: string, device: string, path: string, fstype: string, options: string, fstabPersist: bool)

  // ---- the line classifiers

  /** An entry that is not commented out and whose type field is "swap". */
  predicate SwapEntry(line: string) {
    var trimmed := TrimSpace(line);
    && trimmed != "" && !HasPrefix(trimmed, "#")
    && var fields := Fields(trimmed);
    |fields| >= 3 && fields[2] == "swap"
  }

  /** An entry that is not commented out and whose mount point is `path`. */
  predicate EntryFor(line: string, path: string) {
    var trimmed := TrimSpace(line);
    && trimmed != "" && !HasPrefix(trimmed, "#")
    && var fields := Fields(trimmed);
    |fields| >= 2 && fields[1] == path
  }

  predicate Comment(line: string) {
    var fields := Fields(line);
    fields != [] && HasPrefix(fields[0], "#")
  }

  function Lines(content: string): (lines: seq<string>)
    ensures |lines| >= 1
  {
    Split(content, '\n')
  }

  predicate HasActiveSwap(content: string) { exists line :: line in Lines(content) && SwapEntry(line) }

  predicate HasEntry(content: string, path: string) { exists line :: line in Lines(content) && EntryFor(line, path) }

  method FstabHasActiveSwapLines(content: string) returns (found: bool)
    ensures found <==> HasActiveSwap(content)
  {
    var lines := Lines(content);
    for i := 0 to |lines|
      invariant forall k :: 0 <= k < i ==> !SwapEntry(lines[k])
    {
      if SwapEntry(lines[i]) { return true; }
    }
    return false;
  }

  method FstabLineExists(content: string, path: string) returns (found: bool)
    ensures found <==> HasEntry(content, path)
  {
    var lines := Lines(content);
    for i := 0 to |lines|
      invariant forall k :: 0 <= k < i ==> !EntryFor(lines[k], path)
    {
      if EntryFor(lines[i], path) { return true; }
    }
    return false;
  }

  /** Both classifiers look at the fields of the whole line. */
  lemma ClassifiersByFields(line: string, path: string)
    ensures var fields := Fields(line);
      && (SwapEntry(line) <==> !Comment(line) && |fields| >= 3 && fields[2] == "swap")
      && (EntryFor(line, path) <==> !Comment(line) && |fields| >= 2 && fields[1] == path)
  {
    TrimHead(line);
    FieldsTrim(line);
  }

  // ---- swap's edit

  function CommentLine(line: string): string { if SwapEntry(line) then MARK + line else line }

  function CommentLines(lines: seq<string>): (r: seq<string>)
    ensures |r| == |lines|
    ensures forall i :: 0 <= i < |lines| ==> r[i] == CommentLine(lines[i])
  {
    seq(|lines|, i requires 0 <= i < |lines| => CommentLine(lines[i]))
  }

  /** The text swap leaves in fstab. */
  function CommentSwap(content: string): string { Join(CommentLines(Lines(content)), "\n") }

  method CommentFstabSwapLines(content: string) returns (edited: string)
    ensures edited == CommentSwap(content)
  {
    var split := Lines(content);
    var lines := new string[|split|](i requires 0 <= i < |split| => split[i]);
    for i := 0 to lines.Length
      invariant forall k :: 0 <= k < lines.Length ==> lines[k] == if k < i then CommentLine(split[k]) else split[k]
    {
      if SwapEntry(lines[i]) { lines[i] := MARK + lines[i]; }
    }
    assert lines[..] == CommentLines(split);
    edited := Join(lines[..], "\n");
  }

  lemma MarkedIsComment(line: string)
    ensures Comment(MARK + line)
  {
    assert (MARK + line)[0] == '#';
    FirstFieldHead(MARK + line);
  }

  lemma CommentLineInert(line: string)
    ensures !SwapEntry(CommentLine(line))
    ensures Free(line, Only('\n')) ==> Free(CommentLine(line), Only('\n'))
  {
    if SwapEntry(line) {
      MarkedIsComment(line);
      ClassifiersByFields(MARK + line, "");
      if Free(line, Only('\n')) {
        MarkOneLine();
        FreeConcat(MARK, line, Only('\n'));
      }
    }
  }

  lemma MarkOneLine()
    ensures Free(MARK, Only('\n')) && MARK == "# disabled by node-configurator: "
  {
    FreeConcat("# disabled by ", "node-configurator: ", Only('\n'));
  }

  /** The edit acts line by line. */
  lemma CommentSwapLines(content: string)
    ensures Lines(CommentSwap(content)) == CommentLines(Lines(content))
  {
    PiecesFree(content, Only('\n'));
    forall i | 0 <= i < |Lines(content)| { CommentLineInert(Lines(content)[i]); }
    SplitJoin(CommentLines(Lines(content)), '\n');
  }

  lemma NothingToComment(content: string)
    requires !HasActiveSwap(content)
    ensures CommentSwap(content) == content
  {
    var lines := Lines(content);
    forall i | 0 <= i < |lines| ensures CommentLine(lines[i]) == lines[i] { assert lines[i] in lines; }
    assert CommentLines(lines) == lines;
    JoinSplit(content, '\n');
  }

  /** With something to comment out, the edit makes the text longer. */
  lemma CommentSwapLonger(content: string)
    requires HasActiveSwap(content)
    ensures |CommentSwap(content)| > |content|
  {
    var lines := Lines(content);
    var line :| line in lines && SwapEntry(line);
    var i :| 0 <= i < |lines| && lines[i] == line;
    assert |MARK| > 0;
    assert |lines[i]| < |CommentLines(lines)[i]|;
    JoinLonger(lines, CommentLines(lines), "\n");
    JoinSplit(content, '\n');
  }

  /** Take the mark off the lines numbered in `marked`. */
  function Uncomment(content: string, marked: set<nat>): string {
    var lines := Lines(content);
    Join(seq(|lines|, i requires 0 <= i < |lines| => if i in marked then lines[i][Min(|MARK|, |lines[i]|)..] else lines[i]), "\n")
  }

  /** Take the mark off every line that carries it. */
  function UncommentAll(content: string): string {
    var lines := Lines(content);
    Join(seq(|lines|, i requires 0 <= i < |lines| => if HasPrefix(lines[i], MARK) then lines[i][|MARK|..] else lines[i]), "\n")
  }

  /** Swap's edit: which lines it changes, that it leaves no active entry, that it is idempotent and reversible. */
  lemma CommentSwapExact(content: string)
    ensures var before, after := Lines(content), Lines(CommentSwap(content));
      && |after| == |before|
      && forall i :: 0 <= i < |before| ==>
           && (after[i] != before[i] <==> SwapEntry(before[i]))
           && (SwapEntry(before[i]) ==> after[i] == MARK + before[i])
    ensures !HasActiveSwap(CommentSwap(content))
    ensures CommentSwap(CommentSwap(content)) == CommentSwap(content)
  {
    CommentSwapLines(content);
    var before := Lines(content);
    forall i | 0 <= i < |before| ensures !SwapEntry(CommentLine(before[i])) { CommentLineInert(before[i]); }
    NothingToComment(CommentSwap(content));
  }

  /** Stripping the mark from exactly the lines the edit changed restores the file byte for byte. */
  lemma CommentSwapReversible(content: string)
    ensures var lines := Lines(content);
      Uncomment(CommentSwap(content), set i: nat | i < |lines| && SwapEntry(lines[i])) == content
  {
    var lines := Lines(content);
    var marked := set i: nat | i < |lines| && SwapEntry(lines[i]);
    CommentSwapLines(content);
    var after := Lines(CommentSwap(content));
    assert seq(|after|, i requires 0 <= i < |after| =>
      if i in marked then after[i][Min(|MARK|, |after[i]|)..] else after[i]) == lines;
    JoinSplit(content, '\n');
  }

  lemma StripEveryMark(line: string)
    ensures var l := CommentLine(line);
      (if HasPrefix(l, MARK) then l[|MARK|..] else l) == line <==> !HasPrefix(line, MARK)
  {
    if HasPrefix(line, MARK) {
      MarkedIsComment(line[|MARK|..]);
      assert line == MARK + line[|MARK|..];
      ClassifiersByFields(line, "");
    }
  }

  /** Without a record of the changed lines the original comes back iff no line carried the mark before. */
  lemma {:induction false} UncommentAllRestoresIff(content: string)
    ensures UncommentAll(CommentSwap(content)) == content
      <==> forall i :: 0 <= i < |Lines(content)| ==> !HasPrefix(Lines(content)[i], MARK)
  {
    var lines := Lines(content);
    CommentSwapLines(content);
    var after := Lines(CommentSwap(content));
    var stripped := seq(|after|, i requires 0 <= i < |after| =>
      if HasPrefix(after[i], MARK) then after[i][|MARK|..] else after[i]);
    PiecesFree(content, Only('\n'));
    forall i | 0 <= i < |lines|
      ensures stripped[i] == lines[i] <==> !HasPrefix(lines[i], MARK)
      ensures Free(stripped[i], Only('\n'))
    {
      StripEveryMark(lines[i]);
      CommentLineInert(lines[i]);
    }
    SplitJoin(stripped, '\n');
    JoinSplit(content, '\n');
    if stripped == lines {
      forall i | 0 <= i < |lines| ensures !HasPrefix(lines[i], MARK) { assert stripped[i] == lines[i]; }
    }
  }

  // ---- a mount's edit

  function EntryLine(m: MountSpec): string {
    m.device + " " + m.path + " " + m.fstype + " " + m.options + " 0 0"
  }

  function AppendEntry(existing: string, m: MountSpec): string {
    (if existing != "" && !HasSuffix(existing, "\n") then existing + "\n" else existing) + EntryLine(m) + "\n"
  }

  /** The text a mount leaves in fstab. */
  function PersistMount(existing: string, m: MountSpec): string {
    if !m.fstabPersist || HasEntry(existing, m.path) then existing else AppendEntry(existing, m)
  }

  method PersistFstab(existing: string, m: MountSpec) returns (content: string)
    requires m.fstabPersist
    ensures content == PersistMount(existing, m)
  {
    content := existing;
    var exists_ := FstabLineExists(existing, m.path);
    if exists_ { return; }
    if content != "" && !HasSuffix(content, "\n") { content := content + "\n"; }
    content := content + EntryLine(m) + "\n";
  }

  /** A mount whose entry reads back as itself: three one-word fields and one-line options. */
  predicate WellFormed(m: MountSpec) {
    && Word(m.device) && m.device[0] != '#' && Word(m.path) && Word(m.fstype)
    && m.fstype != "swap" && Free(m.options, Only('\n'))
  }

  /** The entry has the three fields, the options, and two zeros. */
  lemma EntryFields(m: MountSpec)
    requires Word(m.device) && Word(m.path) && Word(m.fstype)
    ensures Fields(EntryLine(m)) == [m.device, m.path, m.fstype] + Fields(m.options) + ["0", "0"]
  {
    var rest := m.fstype + " " + (m.options + " " + "0 0");
    var whole := m.path + " " + rest;
    assert m.options + " 0 0" == m.options + " " + "0 0";
    assert EntryLine(m) == m.device + [' '] + whole;
    FieldsWord(m.device);
    FieldsWord(m.path);
    FieldsWord(m.fstype);
    FieldsWord("0");
    FieldsConcat("0", ' ', "0");
    FieldsConcat(m.options, ' ', "0 0");
    FieldsConcat(m.fstype, ' ', m.options + " " + "0 0");
    FieldsConcat(m.path, ' ', rest);
    FieldsConcat(m.device, ' ', whole);
  }

  lemma EntryLineReads(m: MountSpec)
    requires WellFormed(m)
    ensures EntryFor(EntryLine(m), m.path) && !SwapEntry(EntryLine(m)) && Free(EntryLine(m), Only('\n'))
  {
    EntryFields(m);
    ClassifiersByFields(EntryLine(m), m.path);
  }

  /** Appending keeps every line with text in it and adds one line and at most blank ones. */
  lemma AppendedLines(existing: string, m: MountSpec)
    requires Free(EntryLine(m), Only('\n'))
    ensures var before, after := Lines(existing), Lines(AppendEntry(existing, m));
      && EntryLine(m) in after
      && (forall line :: line in before && line != "" ==> line in after)
      && (forall line :: line in after ==> line in before || line == EntryLine(m) || line == "")
  {
    var entry := EntryLine(m);
    SplitOnFree(entry, Only('\n'));
    LinesWithNewline(entry);
    if existing == "" {
      assert AppendEntry(existing, m) == entry + "\n";
    } else if HasSuffix(existing, "\n") {
      var body := existing[..|existing| - 1];
      assert existing == body + "\n";
      LinesWithNewline(body);
      AppendedAfter(body, entry);
      assert AppendEntry(existing, m) == body + "\n" + (entry + "\n");
    } else {
      AppendedAfter(existing, entry);
      assert AppendEntry(existing, m) == existing + "\n" + (entry + "\n");
    }
  }

  /** What a mount leaves in a file without an entry for its path: the lines with text, and one more, with exactly the
      device, path, type, options and two zeros as its fields. */
  lemma PersistedEntry(existing: string, m: MountSpec)
    requires WellFormed(m) && m.fstabPersist && !HasEntry(existing, m.path)
    ensures var before, after := Lines(existing), Lines(PersistMount(existing, m));
      && (exists line :: line in after && Fields(line) == [m.device, m.path, m.fstype] + Fields(m.options) + ["0", "0"])
      && (forall line :: line in before && line != "" ==> line in after)
      && (forall line :: line in after && line !in before && line != "" ==>
            Fields(line) == [m.device, m.path, m.fstype] + Fields(m.options) + ["0", "0"])
      && existing <= PersistMount(existing, m)
  {
    EntryFields(m);
    EntryLineReads(m);
    AppendedLines(existing, m);
    assert EntryLine(m) in Lines(PersistMount(existing, m));
  }

  lemma AppendedAfter(body: string, entry: string)
    requires Lines(entry) == [entry]
    ensures Lines(body + "\n" + (entry + "\n")) == Lines(body) + [entry, ""]
  {
    LinesWithNewline(entry);
    SplitOnConcat(body, '\n', entry + "\n", Only('\n'));
    assert body + "\n" + (entry + "\n") == body + ['\n'] + (entry + "\n");
    assert [entry] + [""] == [entry, ""];
  }

  lemma LinesWithNewline(body: string)
    ensures Lines(body + "\n") == Lines(body) + [""]
  {
    SplitOnConcat(body, '\n', "", Only('\n'));
    assert body + "\n" == body + ['\n'] + "";
  }

  lemma BlankIsNoEntry(path: string)
    ensures !EntryFor("", path) && !SwapEntry("")
  {}

  lemma PersistKeeps(existing: string, m: MountSpec, path: string)
    requires m.fstabPersist ==> WellFormed(m)
    ensures HasEntry(existing, path) ==> HasEntry(PersistMount(existing, m), path)
    ensures HasActiveSwap(PersistMount(existing, m)) <==> HasActiveSwap(existing)
    ensures m.fstabPersist ==> HasEntry(PersistMount(existing, m), m.path)
  {
    if m.fstabPersist && !HasEntry(existing, m.path) {
      EntryLineReads(m);
      AppendedLines(existing, m);
      BlankIsNoEntry(path);
    }
  }

  // ---- the two editors together

  ghost function PersistAll(existing: string, mounts: seq<MountSpec>): string
    decreases |mounts|
  {
    if mounts == [] then existing else PersistAll(PersistMount(existing, mounts[0]), mounts[1..])
  }

  /** One pass over fstab in the engine's order: swap first, then every mount. */
  ghost function Pass(content: string, mounts: seq<MountSpec>): string { PersistAll(CommentSwap(content), mounts) }

  ghost predicate AllWellFormed(mounts: seq<MountSpec>) {
    forall m :: m in mounts && m.fstabPersist ==> WellFormed(m)
  }

  lemma {:induction false} PersistAllKeeps(existing: string, mounts: seq<MountSpec>, path: string)
    requires AllWellFormed(mounts)
    ensures HasEntry(existing, path) ==> HasEntry(PersistAll(existing, mounts), path)
    ensures HasActiveSwap(PersistAll(existing, mounts)) <==> HasActiveSwap(existing)
    ensures forall m :: m in mounts && m.fstabPersist ==> HasEntry(PersistAll(existing, mounts), m.path)
    decreases |mounts|
  {
    if mounts != [] {
      var next := PersistMount(existing, mounts[0]);
      PersistKeeps(existing, mounts[0], path);
      PersistAllKeeps(next, mounts[1..], path);
      PersistAllKeeps(next, mounts[1..], mounts[0].path);
      forall m | m in mounts && m.fstabPersist ensures HasEntry(PersistAll(existing, mounts), m.path) {
        if m != mounts[0] { assert m in mounts[1..]; }
      }
    }
  }

  lemma {:induction false} PersistAllSettled(content: string, mounts: seq<MountSpec>)
    requires forall m :: m in mounts && m.fstabPersist ==> HasEntry(content, m.path)
    ensures PersistAll(content, mounts) == content
    decreases |mounts|
  {
    if mounts != [] {
      assert mounts[0] in mounts;
      PersistAllSettled(content, mounts[1..]);
    }
  }

  /** From any fstab one pass leaves no active swap entry and an entry for every mount, and is a fixed point. */
  lemma PassIsFixedPoint(content: string, mounts: seq<MountSpec>)
    requires AllWellFormed(mounts)
    ensures var r := Pass(content, mounts);
      && !HasActiveSwap(r)
      && (forall m :: m in mounts && m.fstabPersist ==> HasEntry(r, m.path))
      && Pass(r, mounts) == r
  {
    var r := Pass(content, mounts);
    CommentSwapExact(content);
    PersistAllKeeps(CommentSwap(content), mounts, "");
    NothingToComment(r);
    PersistAllSettled(r, mounts);
  }

  /** Some existing entry names the path, and every one that does is a swap entry. */
  ghost predicate OnlySwapNames(content: string, path: string) {
    && HasEntry(content, path)
    && forall line :: line in Lines(content) && EntryFor(line, path) ==> SwapEntry(line)
  }

  /** Mount first, swap second loses the mount's entry exactly when only swap entries named its path. */
  lemma ReverseOrderIff(content: string, m: MountSpec)
    requires m.fstabPersist && WellFormed(m)
    ensures HasEntry(CommentSwap(PersistMount(content, m)), m.path) <==> !OnlySwapNames(content, m.path)
  {
    var mid := PersistMount(content, m);
    CommentKeepsEntryIff(mid, m.path);
    if !HasEntry(content, m.path) {
      EntryLineReads(m);
      AppendedLines(content, m);
      BlankIsNoEntry(m.path);
    }
  }

  lemma CommentKeepsEntryIff(content: string, path: string)
    ensures HasEntry(CommentSwap(content), path)
      <==> exists line :: line in Lines(content) && EntryFor(line, path) && !SwapEntry(line)
  {
    var before, after := Lines(content), Lines(CommentSwap(content));
    CommentSwapLines(content);
    forall i | 0 <= i < |before| ensures EntryFor(after[i], path) <==> EntryFor(before[i], path) && !SwapEntry(before[i]) {
      if SwapEntry(before[i]) {
        MarkedIsComment(before[i]);
        ClassifiersByFields(after[i], path);
      }
    }
    if HasEntry(CommentSwap(content), path) {
      var line :| line in after && EntryFor(line, path);
      var i :| 0 <= i < |after| && after[i] == line;
      assert before[i] in before;
    }
    if exists line :: line in before && EntryFor(line, path) && !SwapEntry(line) {
      var line :| line in before && EntryFor(line, path) && !SwapEntry(line);
      var i :| 0 <= i < |before| && before[i] == line;
      assert after[i] in after;
    }
  }
}
