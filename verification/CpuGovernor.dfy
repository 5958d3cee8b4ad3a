/** The cpu-governor resource: every CPU's scaling_governor file set to one name. */
module CpuGovernor {
  import opened Numbers
  import opened Text
  import opened Engine

  /** What the glob finds (None when it fails), and the text of each file by path. */
  datatype CpuHost = CpuHost(
    paths: Option<seq<string>>, governors: map<string, string>, unreadable: set<string>, unwritable: set<string>)

  predicate Readable(h: CpuHost, p: string) { p in h.governors && p !in h.unreadable }

  predicate Runs(h: CpuHost, p: string, governor: string) { Readable(h, p) && TrimSpace(h.governors[p]) == governor }

  function Check(h: CpuHost, governor: string): Checked {
    if governor == "" then Checked(Skipped, false)
    else
      match h.paths
      case None => Checked(Failed, true)
      case Some(paths) =>
        if paths == [] then Checked(Skipped, false)
        else if exists p :: p in paths && Readable(h, p) && !Runs(h, p, governor) then Checked(WouldChange, false)
        else Checked(Unchanged, false)
  }

  /** Every file that can be read shows the governor, white space around it aside. */
  predicate AllRun(h: CpuHost, governor: string)
    requires h.paths.Some?
  {
    forall p :: p in h.paths.value && p in h.governors && p !in h.unreadable ==> TrimSpace(h.governors[p]) == governor
  }

  lemma CheckIff(h: CpuHost, governor: string)
    ensures Check(h, governor) == Checked(Failed, true) <==> governor != "" && h.paths == None
    ensures Check(h, governor) == Checked(WouldChange, false) <==> governor != "" && h.paths.Some? && !AllRun(h, governor)
    ensures Check(h, governor) == Checked(Skipped, false) <==> governor == "" || h.paths == Some([])
    ensures Check(h, governor) == Checked(Unchanged, false) <==> governor != "" && h.paths.Some? && h.paths.value != [] && AllRun(h, governor)
  {}

  method CheckNode(node: Node<CpuHost>, governor: string) returns (res: Checked)
    ensures res == Check(node.host, governor)
  {
    if governor == "" { return Checked(Skipped, false); }
    if node.host.paths == None { return Checked(Failed, true); }
    var paths := node.host.paths.value;
    if |paths| == 0 { return Checked(Skipped, false); }
    var drift := 0;
    for i := 0 to |paths|
      invariant drift >= 0
      invariant drift > 0 <==> exists j :: 0 <= j < i && Readable(node.host, paths[j]) && !Runs(node.host, paths[j], governor)
    {
      if Readable(node.host, paths[i]) && !Runs(node.host, paths[i], governor) { drift := drift + 1; }
    }
    res := Checked(if drift == 0 then Unchanged else WouldChange, false);
  }

  /** The sweep, up to the first failing write; `echo` is what the kernel reads back. */
  function ApplyFrom(paths: seq<string>, h: CpuHost, governor: string, echo: string -> string): Applied<CpuHost>
    decreases |paths|
  {
    if paths == [] then Applied(h, true)
    else if Runs(h, paths[0], governor) then ApplyFrom(paths[1..], h, governor, echo)
    else if paths[0] !in h.governors || paths[0] in h.unwritable then Applied(h, false)
    else ApplyFrom(paths[1..], h.(governors := h.governors[paths[0] := echo(governor)]), governor, echo)
  }

  function Apply(h: CpuHost, governor: string, echo: string -> string): Applied<CpuHost> {
    if governor == "" then Applied(h, true)
    else
      match h.paths
      case None => Applied(h, false)
      case Some(paths) => ApplyFrom(paths, h, governor, echo)
  }

  method ApplyNode(node: Node<CpuHost>, governor: string, echo: string -> string) returns (ok: bool)
    modifies node
    ensures Applied(node.host, ok) == Apply(old(node.host), governor, echo)
  {
    if governor == "" { return true; }
    if node.host.paths == None { return false; }
    var paths := node.host.paths.value;
    for i := 0 to |paths|
      invariant ApplyFrom(paths[i..], node.host, governor, echo) == ApplyFrom(paths, old(node.host), governor, echo)
    {
      var p := paths[i];
      assert paths[i..][0] == p && paths[i..][1..] == paths[i + 1..];
      if Runs(node.host, p, governor) { continue; }
      if p !in node.host.governors || p in node.host.unwritable { return false; }
      node.host := node.host.(governors := node.host.governors[p := echo(governor)]);
    }
    ok := true;
  }

  /** The kernel reads a name back as written, give or take white space around it. */
  ghost predicate EchoTrims(echo: string -> string) { forall name :: TrimSpace(echo(name)) == TrimSpace(name) }

  /** What a completed sweep leaves in each file. */
  lemma {:induction false} SweepEffect(paths: seq<string>, h: CpuHost, governor: string, echo: string -> string)
    requires EchoTrims(echo) && ApplyFrom(paths, h, governor, echo).ok
    ensures var h' := ApplyFrom(paths, h, governor, echo).state;
      && h' == h.(governors := h'.governors) && h'.governors.Keys == h.governors.Keys
      && (forall p :: p in h.governors && (p !in paths || Runs(h, p, governor)) ==> h'.governors[p] == h.governors[p])
      && (forall p :: p in h.governors && TrimSpace(h.governors[p]) == TrimSpace(governor) ==> TrimSpace(h'.governors[p]) == TrimSpace(governor))
      && (forall p :: p in paths ==> p in h.governors && (TrimSpace(h'.governors[p]) == TrimSpace(governor) || Runs(h, p, governor)))
    decreases |paths|
  {
    if paths != [] {
      var p, rest := paths[0], paths[1..];
      assert forall x :: x in paths <==> x == p || x in rest;
      if Runs(h, p, governor) {
        TrimTwice(h.governors[p]);
        SweepEffect(rest, h, governor, echo);
      } else {
        SweepEffect(rest, h.(governors := h.governors[p := echo(governor)]), governor, echo);
      }
    }
  }

  /** The sweep succeeds exactly when every listed file shows the governor or can be written. */
  lemma {:induction false} SweepSucceedsIff(paths: seq<string>, h: CpuHost, governor: string, echo: string -> string)
    ensures ApplyFrom(paths, h, governor, echo).ok <==>
      forall p :: p in paths ==> Runs(h, p, governor) || (p in h.governors && p !in h.unwritable)
    decreases |paths|
  {
    if paths != [] {
      var p, rest := paths[0], paths[1..];
      assert forall x :: x in paths <==> x == p || x in rest;
      if Runs(h, p, governor) {
        SweepSucceedsIff(rest, h, governor, echo);
      } else if p in h.governors && p !in h.unwritable {
        SweepSucceedsIff(rest, h.(governors := h.governors[p := echo(governor)]), governor, echo);
      }
    }
  }

  lemma TrimTwice(s: string)
    ensures TrimSpace(TrimSpace(s)) == TrimSpace(s)
  {
    TrimSpaceTight(s);
    TrimTight(TrimSpace(s));
  }

  /** A successful Apply settles the resource exactly when no file is readable or the name has no white space around
      it: Check compares the trimmed text with the name as the operator wrote it. Files that are not listed, or show the
      name, are left alone. */
  lemma SettlesIff(h: CpuHost, governor: string, echo: string -> string)
    requires EchoTrims(echo) && governor != "" && Apply(h, governor, echo).ok
    ensures var h' := Apply(h, governor, echo).state; var c := Check(h', governor);
      (!c.err && c.status in {Unchanged, Skipped})
      <==> TrimSpace(governor) == governor || forall p :: p in h.paths.value ==> !Readable(h, p)
    ensures var h' := Apply(h, governor, echo).state;
      forall p :: p in h.governors && (p !in h.paths.value || Runs(h, p, governor)) ==> p in h'.governors && h'.governors[p] == h.governors[p]
  {
    var h' := Apply(h, governor, echo).state;
    SweepEffect(h.paths.value, h, governor, echo);
    TrimTwice(governor);
    forall p | p in h.paths.value && Readable(h, p) ensures Runs(h', p, governor) <==> TrimSpace(governor) == governor {
      TrimTwice(h.governors[p]);
      TrimTwice(h'.governors[p]);
    }
  }

  /** Whatever the outcome, Apply neither brings nor takes away a file. */
  lemma {:induction false} ApplyFrame(paths: seq<string>, h: CpuHost, governor: string, echo: string -> string)
    ensures var h' := ApplyFrom(paths, h, governor, echo).state;
      h' == h.(governors := h'.governors) && h'.governors.Keys == h.governors.Keys
    decreases |paths|
  {
    if paths != [] {
      ApplyFrame(paths[1..], h, governor, echo);
      if paths[0] in h.governors { ApplyFrame(paths[1..], h.(governors := h.governors[paths[0] := echo(governor)]), governor, echo); }
    }
  }

  function Applier(governor: string, echo: string -> string): CpuHost -> CpuHost { (h: CpuHost) => Apply(h, governor, echo).state }

  predicate Shows(h: CpuHost, p: string) { h.paths.Some? && p in h.paths.value && Readable(h, p) }

  lemma PaddedDrifts(h: CpuHost, governor: string, p: string)
    requires TrimSpace(governor) != governor && Shows(h, p)
    ensures Check(h, governor) == Checked(WouldChange, false)
  {
    TrimTwice(h.governors[p]);
    assert TrimSpace("") == "";
    assert !Runs(h, p, governor);
  }

  /** A governor with white space around it, on any host with a readable file: drift after any number of Applies,
      whatever the kernel reads back. */
  lemma NeverSettles(h: CpuHost, governor: string, echo: string -> string, p: string, n: nat)
    requires TrimSpace(governor) != governor && Shows(h, p)
    ensures Check(Times(Applier(governor, echo), h, n), governor) == Checked(WouldChange, false)
  {
    var step := Applier(governor, echo);
    var inv := (x: CpuHost) => Shows(x, p);
    forall x | inv(x) ensures inv(step(x)) { ApplyFrame(x.paths.value, x, governor, echo); }
    TimesKeep(step, h, n, inv);
    PaddedDrifts(Times(step, h, n), governor, p);
  }

  /** Such a governor: any that starts or ends with white space. */
  lemma PaddedIsNotTrimmed(governor: string)
    requires governor != "" && (IsSpace(governor[0]) || IsSpace(governor[|governor| - 1]))
    ensures TrimSpace(governor) != governor
  {
    TrimSpaceTight(governor);
  }
}
