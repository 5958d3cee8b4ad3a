/** The kernel-modules resource: load what is missing, then render the modules-load.d drop-in. */
module KernelModules {
  import opened Text
  import opened Sorting
  import opened Engine
  import opened HostState

  const PROC_MODULES := "/proc/modules"

  /** The names in /proc/modules: the first field of every line that has one. */
  function Loaded(text: string): set<string> { set m | m in FirstFields(Split(text, '\n')) }

  method LoadedModules(text: string) returns (loaded: set<string>)
    ensures loaded == Loaded(text)
  {
    var lines := Split(text, '\n');
    loaded := {};
    for i := 0 to |lines|
      invariant forall m :: m in Loaded(text) <==> m in loaded || m in FirstFields(lines[i..])
    {
      FirstFieldsStep([], lines, i);
      var fields := Fields(lines[i]);
      if |fields| > 0 { loaded := loaded + {fields[0]}; }
    }
  }

  function RenderModules(modules: seq<string>): string {
    if modules == [] then "" else modules[0] + "\n" + RenderModules(modules[1..])
  }

  function RenderFile(modules: seq<string>): string { HEADER + "\n" + RenderModules(modules) }

  method RenderModulesFile(modules: seq<string>) returns (text: string)
    ensures text == RenderFile(modules)
  {
    var body := RenderNames(modules);
    text := HEADER + "\n" + body;
  }

  method RenderNames(modules: seq<string>) returns (text: string)
    ensures text == RenderModules(modules)
  {
    text := "";
    for i := 0 to |modules|
      invariant text + RenderModules(modules[i..]) == RenderModules(modules)
    {
      assert modules[i..][0] == modules[i] && modules[i..][1..] == modules[i + 1..];
      ghost var rest := RenderModules(modules[i + 1..]);
      assert text + (modules[i] + "\n" + rest) == (text + modules[i] + "\n") + rest;
      text := text + modules[i];
      text := text + "\n";
    }
  }

  /** What a reader of the drop-in takes for module names: its lines, but for blank ones and comments. */
  function NamesIn(lines: seq<string>): seq<string> {
    if lines == [] then []
    else (if lines[0] == "" || HasPrefix(lines[0], "#") then [] else [lines[0]]) + NamesIn(lines[1..])
  }

  lemma {:induction false} RenderedLines(modules: seq<string>)
    requires forall m :: m in modules ==> Free(m, Only('\n'))
    ensures Split(RenderModules(modules), '\n') == modules + [""]
  {
    if modules != [] {
      assert modules[0] in modules;
      RenderedLines(modules[1..]);
      SplitOnFree(modules[0], Only('\n'));
      assert RenderModules(modules) == modules[0] + ['\n'] + RenderModules(modules[1..]);
      SplitOnConcat(modules[0], '\n', RenderModules(modules[1..]), Only('\n'));
      assert [modules[0]] + (modules[1..] + [""]) == modules + [""];
    }
  }

  lemma {:induction false} NamesOf(modules: seq<string>)
    requires forall m :: m in modules ==> m != "" && !HasPrefix(m, "#")
    ensures NamesIn(modules + [""]) == modules
  {
    if modules == [] {
      assert [] + [""] == [""] && [""][1..] == [];
    } else {
      assert modules[0] in modules;
      assert (modules + [""])[1..] == modules[1..] + [""];
      assert forall m :: m in modules[1..] ==> m in modules;
      NamesOf(modules[1..]);
    }
  }

  lemma HeaderOneLine()
    ensures Free(HEADER, Only('\n')) && HEADER != "" && HEADER[0] == '#'
  {
    var a, b, c, d := "# Managed by ", "node-configurator. ", "Local edits will ", "be overwritten.";
    FreeConcat(a, b, Only('\n'));
    FreeConcat(a + b, c, Only('\n'));
    FreeConcat(a + b + c, d, Only('\n'));
    assert HEADER == a + b + c + d;
  }

  /** Reading the drop-in gives the modules back, in the order they were written, below a line of comment. */
  lemma ReadRendered(modules: seq<string>)
    requires forall m :: m in modules ==> m != "" && !HasPrefix(m, "#") && Free(m, Only('\n'))
    ensures NamesIn(Split(RenderFile(modules), '\n')) == modules
    ensures HasPrefix(RenderFile(modules), "# Managed by ")
  {
    HeaderOneLine();
    RenderedLines(modules);
    NamesOf(modules);
    SplitOnFree(HEADER, Only('\n'));
    assert RenderFile(modules) == HEADER + ['\n'] + RenderModules(modules);
    SplitOnConcat(HEADER, '\n', RenderModules(modules), Only('\n'));
    assert ([HEADER] + (modules + [""]))[1..] == modules + [""];
    HeaderPrefix(RenderModules(modules));
  }

  lemma HeaderPrefix(rest: string)
    ensures HasPrefix(HEADER + "\n" + rest, "# Managed by ")
  {
    assert HEADER == "# Managed by " + ("node-configurator. " + "Local edits will " + "be overwritten.");
  }

  datatype KernelModuleResource = KernelModuleResource(modules: seq<string>, persistFile: string) {

    function WantModules(): seq<string> { Sort(LexLe, modules) }

    function Missing(h: Host): set<string> { (set m | m in modules) - Loaded(h.procModules) }

    predicate PersistNeeded(h: Host) {
      persistFile != "" && ReadFile(h, persistFile) != Content(RenderFile(WantModules()))
    }

    function Check(h: Host): Checked {
      if modules == [] then Checked(Skipped, false)
      else if PROC_MODULES in h.unreadable then Checked(Failed, true)
      else Checked(if Missing(h) == {} && !PersistNeeded(h) then Unchanged else WouldChange, false)
    }

    method CheckNode(node: Node<Host>) returns (res: Checked)
      ensures res == Check(node.host)
    {
      if |modules| == 0 { return Checked(Skipped, false); }
      if PROC_MODULES in node.host.unreadable { return Checked(Failed, true); }
      var loaded := LoadedModules(node.host.procModules);
      var want := WantModules();
      LexOrder();
      SortMembers(LexLe, modules);
      var missing: seq<string> := [];
      for i := 0 to |want|
        invariant forall m :: m in missing <==> m in want[..i] && m !in loaded
      {
        if want[i] !in loaded { missing := missing + [want[i]]; }
      }
      assert missing == [] <==> Missing(node.host) == {} by {
        assert want[..|want|] == want;
        if missing != [] { assert missing[0] in missing && missing[0] in Missing(node.host); }
      }
      var persistDrift := PersistNeeded(node.host);
      res := Checked(if |missing| == 0 && !persistDrift then Unchanged else WouldChange, false);
    }

    /** Said of the texts: every wanted module is the first field of a line of /proc/modules, and the drop-in, if there is
        one, holds the sorted names. */
    ghost predicate InPlace(h: Host) {
      && (forall m :: m in modules ==> exists line :: line in Split(h.procModules, '\n') && Fields(line) != [] && Fields(line)[0] == m)
      && (persistFile != "" ==> ReadFile(h, persistFile) == Content(RenderFile(WantModules())))
    }

    lemma CheckIff(h: Host)
      ensures Check(h) == Checked(Skipped, false) <==> modules == []
      ensures Check(h) == Checked(Failed, true) <==> modules != [] && PROC_MODULES in h.unreadable
      ensures Check(h) == Checked(Unchanged, false) <==> modules != [] && PROC_MODULES !in h.unreadable && InPlace(h)
      ensures Check(h) == Checked(WouldChange, false) <==> modules != [] && PROC_MODULES !in h.unreadable && !InPlace(h)
    {
      forall m ensures m in Loaded(h.procModules) <==>
        exists line :: line in Split(h.procModules, '\n') && Fields(line) != [] && Fields(line)[0] == m
      {
        FirstFieldsAre(Split(h.procModules, '\n'), m);
      }
      assert Missing(h) == {} <==> forall m :: m in modules ==> m in Loaded(h.procModules) by {
        forall m | m in modules ensures m in Missing(h) <==> m !in Loaded(h.procModules) {}
        assert forall m :: m in Missing(h) ==> m in modules;
      }
    }

    /** Load, in order, what was not loaded when Apply started. */
    function LoadAll(k: Kernel, want: seq<string>, loaded: set<string>, h: Host): Applied<Host>
      decreases |want|
    {
      if want == [] then Applied(h, true)
      else if want[0] in loaded then LoadAll(k, want[1..], loaded, h)
      else if ["modprobe", want[0]] in h.broken then Applied(h, false)
      else LoadAll(k, want[1..], loaded, Modprobe(k, h, want[0]))
    }

    function Apply(k: Kernel, h: Host): Applied<Host> {
      if PROC_MODULES in h.unreadable then Applied(h, false)
      else
        var done := LoadAll(k, WantModules(), Loaded(h.procModules), h);
        if !done.ok || persistFile == "" then done
        else WriteFile(done.state, persistFile, RenderFile(WantModules()))
    }

    method ApplyNode(k: Kernel, node: Node<Host>) returns (ok: bool)
      modifies node
      ensures Applied(node.host, ok) == Apply(k, old(node.host))
    {
      if PROC_MODULES in node.host.unreadable { return false; }
      var loaded := LoadedModules(node.host.procModules);
      var want := WantModules();
      for i := 0 to |want|
        invariant LoadAll(k, want[i..], loaded, node.host) == LoadAll(k, want, loaded, old(node.host))
      {
        assert want[i..][0] == want[i] && want[i..][1..] == want[i + 1..];
        if want[i] in loaded { continue; }
        if ["modprobe", want[i]] in node.host.broken { return false; }
        node.host := Modprobe(k, node.host, want[i]);
      }
      ok := true;
      if persistFile != "" {
        var content := RenderModulesFile(want);
        var written := WriteFile(node.host, persistFile, content);
        node.host := written.state;
        ok := written.ok;
      }
    }

    /** Every wanted module is listed, and the drop-in file is up to date. */
    predicate Clean(h: Host) { modules == [] || (Missing(h) == {} && !PersistNeeded(h)) }

    /** The sysctl files that loading the missing ones of `want` brings; an earlier module's default stands. */
    function Exposed(k: Kernel, want: seq<string>, loaded: set<string>): map<string, string> {
      if want == [] then map[]
      else if want[0] in loaded then Exposed(k, want[1..], loaded)
      else Exposed(k, want[1..], loaded) + k.exposes(want[0])
    }

    /** What loading does: the module list only grows, existing sysctl files keep their text, new ones appear. */
    lemma {:induction false} LoadAllEffect(k: Kernel, want: seq<string>, loaded: set<string>, h: Host)
      requires ModprobeKeeps(k) && LoadAll(k, want, loaded, h).ok
      ensures var h' := LoadAll(k, want, loaded, h).state;
        && h' == h.(procModules := h'.procModules, sysctls := Exposed(k, want, loaded) + h.sysctls)
        && Loaded(h.procModules) <= Loaded(h'.procModules)
      decreases |want|
    {
      if want == [] {
        assert map[] + h.sysctls == h.sysctls;
      } else if want[0] in loaded {
        LoadAllEffect(k, want[1..], loaded, h);
      } else {
        var next := Modprobe(k, h, want[0]);
        LoadAllEffect(k, want[1..], loaded, next);
        OverlayAssociates(Exposed(k, want[1..], loaded), k.exposes(want[0]), h.sysctls);
      }
    }

    /** The wanted modules that are not loaded, in order. */
    static function Without(want: seq<string>, loaded: set<string>): (ms: seq<string>)
      ensures forall m :: m in ms <==> m in want && m !in loaded
    {
      if want == [] then [] else (if want[0] in loaded then [] else [want[0]]) + Without(want[1..], loaded)
    }

    static function AllProbed(k: Kernel, text: string, ms: seq<string>): string
      decreases |ms|
    {
      if ms == [] then text else AllProbed(k, k.modprobe(text, ms[0]), ms[1..])
    }

    /** Loading runs modprobe on exactly the wanted modules that were not loaded, in order. */
    lemma {:induction false} LoadsWhatIsMissing(k: Kernel, want: seq<string>, loaded: set<string>, h: Host)
      requires LoadAll(k, want, loaded, h).ok
      ensures LoadAll(k, want, loaded, h).state.procModules == AllProbed(k, h.procModules, Without(want, loaded))
      ensures forall m :: m in Without(want, loaded) ==> ["modprobe", m] !in h.broken
      decreases |want|
    {
      if want != [] {
        if want[0] in loaded {
          LoadsWhatIsMissing(k, want[1..], loaded, h);
          assert Without(want, loaded) == Without(want[1..], loaded);
        } else {
          LoadsWhatIsMissing(k, want[1..], loaded, Modprobe(k, h, want[0]));
          assert Without(want, loaded)[1..] == Without(want[1..], loaded);
        }
      }
    }

    lemma {:induction false} LoadsIff(k: Kernel, want: seq<string>, loaded: set<string>, h: Host)
      ensures LoadAll(k, want, loaded, h).ok <==> forall m :: m in Without(want, loaded) ==> ["modprobe", m] !in h.broken
      ensures LoadAll(k, want, loaded, h).state.unreadable == h.unreadable && LoadAll(k, want, loaded, h).state.unwritable == h.unwritable
      ensures LoadAll(k, want, loaded, h).state.files == h.files
      decreases |want|
    {
      if want != [] {
        if want[0] in loaded {
          LoadsIff(k, want[1..], loaded, h);
        } else {
          LoadsIff(k, want[1..], loaded, Modprobe(k, h, want[0]));
          assert Without(want, loaded)[1..] == Without(want[1..], loaded);
          assert forall m :: m in Without(want, loaded) <==> m == want[0] || m in Without(want[1..], loaded);
        }
      }
    }

    /** Apply succeeds exactly when the list can be read, every missing module loads, and the drop-in, if there is one, can
        be read and is current or can be written. */
    lemma SucceedsIff(k: Kernel, h: Host)
      ensures Apply(k, h).ok <==>
        && PROC_MODULES !in h.unreadable
        && (forall m :: m in Missing(h) ==> ["modprobe", m] !in h.broken)
        && (persistFile != "" ==> persistFile !in h.unreadable && (PersistNeeded(h) ==> persistFile !in h.unwritable))
    {
      LexOrder();
      SortMembers(LexLe, modules);
      LoadsIff(k, WantModules(), Loaded(h.procModules), h);
      forall m ensures m in Without(WantModules(), Loaded(h.procModules)) <==> m in Missing(h) {}
    }

    /** The modules are loaded and written in ascending order, whatever order they were asked for in. */
    lemma WantedInOrder()
      ensures Sorted(LexLe, WantModules()) && multiset(WantModules()) == multiset(modules)
    {
      LexOrder();
      SortSorts(LexLe, modules);
    }

    /** A missing module that modprobe lists under its name ends up listed; one it never lists stays as it was. */
    lemma {:induction false} LoadAllLists(k: Kernel, want: seq<string>, loaded: set<string>, h: Host, m: string)
      requires ModprobeKeeps(k) && LoadAll(k, want, loaded, h).ok
      ensures var h' := LoadAll(k, want, loaded, h).state;
        && (m in want && m !in loaded && Nameable(k, m) ==> m in Loaded(h'.procModules))
        && (Unnameable(k, m) ==> (m in Loaded(h'.procModules) <==> m in Loaded(h.procModules)))
      decreases |want|
    {
      if want != [] {
        if want[0] in loaded {
          LoadAllLists(k, want[1..], loaded, h, m);
        } else {
          var next := Modprobe(k, h, want[0]);
          LoadAllLists(k, want[1..], loaded, next, m);
          LoadAllEffect(k, want[1..], loaded, next);
        }
      }
    }

    static lemma OverlayAssociates(a: map<string, string>, b: map<string, string>, c: map<string, string>)
      ensures a + (b + c) == (a + b) + c
    {}

    /** Provided modprobe lists each wanted module under the wanted name always or never, a successful Apply
        settles the resource exactly when every module it found missing is one that gets listed. */
    lemma SettlesIff(k: Kernel, h: Host)
      requires ModprobeKeeps(k) && Apply(k, h).ok && modules != []
      requires forall m :: m in modules ==> Nameable(k, m) || Unnameable(k, m)
      ensures Check(Apply(k, h).state) == Checked(Unchanged, false)
        <==> forall m :: m in Missing(h) ==> Nameable(k, m)
    {
      var h' := Apply(k, h).state;
      AppliedLists(k, h);
      if forall m :: m in Missing(h) ==> Nameable(k, m) {
        forall m | m in modules ensures m in Loaded(h'.procModules) { assert m in Missing(h) || m in Loaded(h.procModules); }
      } else {
        var m :| m in Missing(h) && !Nameable(k, m);
        assert m in Missing(h');
      }
    }

    lemma {:induction false} LoadAllNeverLists(k: Kernel, want: seq<string>, loaded: set<string>, h: Host, m: string)
      requires Unnameable(k, m) && m !in Loaded(h.procModules)
      ensures var h' := LoadAll(k, want, loaded, h).state; m !in Loaded(h'.procModules) && h'.unreadable == h.unreadable
      decreases |want|
    {
      if want != [] && want[0] in loaded {
        LoadAllNeverLists(k, want[1..], loaded, h, m);
      } else if want != [] && ["modprobe", want[0]] !in h.broken {
        LoadAllNeverLists(k, want[1..], loaded, Modprobe(k, h, want[0]), m);
      }
    }

    function Applier(k: Kernel): Host -> Host { (h: Host) => Apply(k, h).state }

    /** A wanted module the kernel never lists is not listed. */
    ghost predicate Stuck(k: Kernel, h: Host, m: string) {
      m in modules && Unnameable(k, m) && m !in Loaded(h.procModules) && PROC_MODULES !in h.unreadable
    }

    lemma StuckStays(k: Kernel, h: Host, m: string)
      requires Stuck(k, h, m)
      ensures Stuck(k, Apply(k, h).state, m) && Check(h) == Checked(WouldChange, false)
    {
      var want, loaded := WantModules(), Loaded(h.procModules);
      LoadAllNeverLists(k, want, loaded, h, m);
      WriteFileEffect(LoadAll(k, want, loaded, h).state, persistFile, RenderFile(want));
      assert m in Missing(h);
    }

    /** Such a module drifts for ever, however often Apply runs. */
    lemma NeverSettles(k: Kernel, h: Host, m: string, n: nat)
      requires Stuck(k, h, m)
      ensures Check(Times(Applier(k), h, n)) == Checked(WouldChange, false)
    {
      var step := Applier(k);
      var inv := (x: Host) => Stuck(k, x, m);
      forall x | inv(x) ensures inv(step(x)) { StuckStays(k, x, m); }
      TimesKeep(step, h, n, inv);
      StuckStays(k, Times(step, h, n), m);
    }

    /** After a successful Apply the drop-in is up to date, and each wanted module is listed if it was before or
        modprobe lists it, and not if modprobe never does. */
    lemma AppliedLists(k: Kernel, h: Host)
      requires ModprobeKeeps(k) && Apply(k, h).ok && modules != []
      ensures var h' := Apply(k, h).state;
        && PROC_MODULES !in h'.unreadable && !PersistNeeded(h')
        && Loaded(h.procModules) <= Loaded(h'.procModules)
        && (forall m :: m in Missing(h) && Nameable(k, m) ==> m in Loaded(h'.procModules))
        && (forall m :: m in Missing(h) && Unnameable(k, m) ==> m !in Loaded(h'.procModules))
    {
      var want, loaded := WantModules(), Loaded(h.procModules);
      var live := LoadAll(k, want, loaded, h).state;
      LexOrder();
      SortMembers(LexLe, modules);
      LoadAllEffect(k, want, loaded, h);
      WriteFileEffect(live, persistFile, RenderFile(want));
      forall m | m in Missing(h)
        ensures Nameable(k, m) ==> m in Loaded(live.procModules)
        ensures Unnameable(k, m) ==> m !in Loaded(live.procModules)
      {
        LoadAllLists(k, want, loaded, h, m);
      }
    }
  }

  function Modprobe(k: Kernel, h: Host, m: string): Host {
    h.(procModules := k.modprobe(h.procModules, m), sysctls := k.exposes(m) + h.sysctls)
  }

  /** Loading a module never unlists another. */
  ghost predicate ModprobeKeeps(k: Kernel) {
    forall text, m :: Loaded(text) <= Loaded(k.modprobe(text, m))
  }

  /** `modprobe m` makes /proc/modules list the name `m`. */
  ghost predicate Nameable(k: Kernel, m: string) {
    forall text :: m in Loaded(k.modprobe(text, m))
  }

  /** No modprobe ever makes /proc/modules list `m`: a module built into the kernel, or a name with a dash. */
  ghost predicate Unnameable(k: Kernel, m: string) {
    forall text, x :: m in Loaded(k.modprobe(text, x)) ==> m in Loaded(text)
  }

  // ---- kernels on which a module never gets listed

  /** A module built into the kernel: modprobe succeeds and /proc/modules stays as it is. */
  lemma BuiltInIsUnnameable(k: Kernel, m: string)
    requires forall text, x :: k.modprobe(text, x) == text
    ensures Unnameable(k, m) && ModprobeKeeps(k)
  {}

  function Underscored(m: string): string { seq(|m|, i requires 0 <= i < |m| => if m[i] == '-' then '_' else m[i]) }

  /** The kernel lists a module with its dashes turned into underscores. */
  ghost predicate ListsUnderscored(k: Kernel) {
    forall text, m :: k.modprobe(text, m) == Underscored(m) + "\n" + text
  }

  lemma {:induction false} FirstFieldsFree(lines: seq<string>, c: char)
    requires forall line :: line in lines ==> Free(line, Only(c))
    ensures forall m :: m in FirstFields(lines) ==> Free(m, Only(c))
  {
    if lines != [] {
      FirstFieldsFree(lines[1..], c);
      PieceFree(lines[0], c);
    }
  }

  lemma PieceFree(line: string, c: char)
    requires Free(line, Only(c))
    ensures forall m :: m in Fields(line) ==> Free(m, Only(c))
  {
    PieceChars(line, White, Only(c));
    NonEmptyMembers(SplitOn(line, White));
  }

  /** So a wanted name with a dash never shows up, whatever is loaded, and a word without one does. */
  lemma DashIsUnnameable(k: Kernel, m: string)
    requires ListsUnderscored(k)
    ensures ModprobeKeeps(k)
    ensures '-' in m ==> Unnameable(k, m)
    ensures Word(m) && '-' !in m ==> Nameable(k, m)
  {
    forall text, x
      ensures Loaded(text) <= Loaded(k.modprobe(text, x))
      ensures '-' in m && m in Loaded(k.modprobe(text, x)) ==> m in Loaded(text)
      ensures Word(m) && '-' !in m && x == m ==> m in Loaded(k.modprobe(text, x))
    {
      LoadedOnTop(Underscored(x), text);
      NoDash(x);
      if Word(m) && '-' !in m { assert Underscored(m) == m; }
    }
  }

  lemma NoDash(x: string)
    ensures forall m :: m in Loaded(Underscored(x)) ==> '-' !in m
  {
    var lines := Split(Underscored(x), '\n');
    assert Free(Underscored(x), Only('-'));
    PieceChars(Underscored(x), Only('\n'), Only('-'));
    FirstFieldsFree(lines, '-');
  }

  /** What a line put on top of /proc/modules adds. */
  lemma LoadedOnTop(m: string, text: string)
    ensures Loaded(m + "\n" + text) == Loaded(m) + Loaded(text)
    ensures Word(m) ==> m in Loaded(m)
  {
    SplitOnConcat(m, '\n', text, Only('\n'));
    assert m + "\n" + text == m + ['\n'] + text;
    FirstFieldsConcat(Split(m, '\n'), Split(text, '\n'));
    if Word(m) {
      assert Free(m, Only('\n'));
      SplitOnFree(m, Only('\n'));
      FieldsWord(m);
      assert FirstFields([m]) == [m] + FirstFields([]);
    }
  }
}
