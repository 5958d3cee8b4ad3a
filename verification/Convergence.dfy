/** Whole passes over one shared host: which resources settle, which leave which alone, and what runs reach, whatever fails. */
module Convergence {
  import opened Numbers
  import opened Text
  import opened Engine
  import opened HostState
  import opened Fstab
  import opened FstabHistory
  import opened ProcSys
  import opened Sysctl
  import opened KernelModules
  import opened SwapMount
  import opened HostUnits
  import AtomicFile

  /** Reads, writes and commands fail alike on both hosts. */
  predicate SameFaults(a: Host, b: Host) {
    && a.unreadable == b.unreadable && a.unwritable == b.unwritable && a.unstattable == b.unstattable
    && a.broken == b.broken && a.short == b.short
  }

  // ---- what an Apply may touch, whether it succeeds or not

  lemma SysctlFrame(k: Kernel, r: SysctlResource, h: Host)
    ensures var h' := r.Apply(k, h).0;
      && h' == h.(sysctls := h'.sysctls, files := h'.files) && h'.sysctls.Keys == h.sysctls.Keys
      && SameElsewhere(h', h, {r.persistFile}) && (r.persistFile == "" ==> h'.files == h.files)
  {
    var live := r.ApplyKeys(k, r.Keys(), h).0;
    r.SweepFrame(k, r.Keys(), h);
    WriteFileFrame(live, r.persistFile, Sysctl.RenderFile(r.settings));
  }

  /** A resource after the modules leaves modules, sysctls and other rendered files alone. */
  ghost predicate LeavesAlone(c: Config, q: Resource<Host>) {
    forall h :: var h' := q.apply(h).state;
      && SameFaults(h', h) && h'.procModules == h.procModules && h'.sysctls == h.sysctls
      && SameElsewhere(h', h, LaterPaths(c))
  }

  /** The paths that swap, the mounts and the drop-ins may write. */
  ghost function LaterPaths(c: Config): set<string> { {FSTAB, BACKUP} + set f | f in c.dropIns :: f.path }

  lemma LaterLeavesAlone(k: Kernel, c: Config, q: Resource<Host>)
    requires q in Later(k, c)
    ensures LeavesAlone(c, q)
  {
    LaterMember(k, c, q);
    forall h
      ensures var h' := q.apply(h).state;
        && SameFaults(h', h) && h'.procModules == h.procModules && h'.sysctls == h.sysctls
        && SameElsewhere(h', h, LaterPaths(c))
    {
      if q == SwapUnit(k) { SwapFrame(k, h); }
      if m :| m in c.mounts && q == MountUnit(k, m) { MountFrame(k, m, h); }
      if f :| f in c.dropIns && q == DropInUnit(f) { WriteFileFrame(h, f.path, f.content); }
    }
  }

  // ---- every resource settles when its Apply succeeds

  lemma SysctlSettles(k: Kernel, r: SysctlResource, h: Host)
    requires FieldPreserving(k) && r.DistinctPaths()
    ensures Settles(SysctlUnit(k, r), h)
  {
    if r.Check(h) == Checked(WouldChange, false) && r.Apply(k, h).1 == None {
      r.NoneDrifted(h, r.Keys());
      ReadableKeys(r, h);
      r.ConvergesIff(k, h);
    }
  }

  lemma ReadableKeys(r: SysctlResource, h: Host)
    requires r.DriftAmong(h, r.Keys()).Some?
    ensures forall key :: key in r.settings && r.Exists(h, key) ==> r.PathOf(key) !in h.unreadable
  {
    r.NoneDrifted(h, r.Keys());
    forall key | key in r.settings && r.Exists(h, key) ensures r.PathOf(key) !in h.unreadable {
      assert key in r.Keys() && !r.Blocked(h, key);
    }
  }

  lemma KmodSettles(k: Kernel, r: KernelModuleResource, h: Host)
    requires ModprobeKeeps(k) && forall m :: m in r.modules ==> Nameable(k, m)
    ensures Settles(KmodUnit(k, r), h)
  {
    if r.Check(h) == Checked(WouldChange, false) && r.Apply(k, h).ok { r.SettlesIff(k, h); }
  }

  lemma SwapSettles(k: Kernel, h: Host)
    requires MaskAddsNone(k) && SwapoffWorks(k) && UnitsLeave(k, h)
    ensures Settles(SwapUnit(k), h)
  {
    if SwapApply(k, h).ok { UnitsLeaveSettles(k, h); }
  }

  lemma DropInSettles(f: DropIn, h: Host)
    ensures Settles(DropInUnit(f), h)
  {
    WriteFileEffect(h, f.path, f.content);
  }

  /** If the run masks units, those still listed once swap is off go when masked. */
  ghost function Leaving(k: Kernel, c: Config): Host -> bool { (h: Host) => c.parts.swap ==> UnitsLeave(k, h) }

  lemma UnitsLeaveFrame(k: Kernel, a: Host, b: Host)
    requires a.procSwaps == b.procSwaps && a.swapUnits == b.swapUnits && a.broken == b.broken
    ensures UnitsLeave(k, a) ==> UnitsLeave(k, b)
  {
    assert SwapOff(k, a).state.swapUnits == SwapOff(k, b).state.swapUnits;
    SwapOffFrame(k, a);
    SwapOffFrame(k, b);
    assert SwapUnits(SwapOff(k, a).state) == SwapUnits(SwapOff(k, b).state);
  }

  lemma {:induction false} LoadAllFrame(k: Kernel, r: KernelModuleResource, want: seq<string>, loaded: set<string>, h: Host)
    ensures var h' := r.LoadAll(k, want, loaded, h).state; h' == h.(procModules := h'.procModules, sysctls := h'.sysctls)
    decreases |want|
  {
    if want != [] {
      LoadAllFrame(k, r, want[1..], loaded, h);
      LoadAllFrame(k, r, want[1..], loaded, Modprobe(k, h, want[0]));
    }
  }

  lemma KmodFrame(k: Kernel, r: KernelModuleResource, h: Host)
    ensures var h' := r.Apply(k, h).state;
      h' == h.(procModules := h'.procModules, sysctls := h'.sysctls, files := h'.files) && SameElsewhere(h', h, {r.persistFile})
  {
    var want, loaded := r.WantModules(), Loaded(h.procModules);
    LoadAllFrame(k, r, want, loaded, h);
    WriteFileFrame(r.LoadAll(k, want, loaded, h).state, r.persistFile, KernelModules.RenderFile(want));
  }

  lemma LeavingStays(k: Kernel, c: Config, r: Resource<Host>, h: Host)
    requires Lawful(k, c) && r in Build(k, c) && Leaving(k, c)(h)
    ensures Leaving(k, c)(r.apply(h).state)
  {
    Members(k, c, r);
    LaterMember(k, c, r);
    var h' := r.apply(h).state;
    if r == SwapUnit(k) {
      if c.parts.swap { UnitsLeaveStays(k, h); }
    } else {
      if r == SysctlUnit(k, c.sysctl) { SysctlFrame(k, c.sysctl, h); }
      if r == KmodUnit(k, c.kmod) { KmodFrame(k, c.kmod, h); }
      if m :| m in c.mounts && r == MountUnit(k, m) { MountFrame(k, m, h); }
      if f :| f in c.dropIns && r == DropInUnit(f) { WriteFileFrame(h, f.path, f.content); }
      UnitsLeaveFrame(k, h, h');
    }
  }

  lemma UnitSettles(k: Kernel, c: Config, r: Resource<Host>, h: Host)
    requires Lawful(k, c) && Sensible(c) && r in Build(k, c) && Leaving(k, c)(h)
    ensures Settles(r, h)
  {
    Members(k, c, r);
    LaterMember(k, c, r);
    SysctlSettles(k, c.sysctl, h);
    KmodSettles(k, c.kmod, h);
    if c.parts.swap { SwapSettles(k, h); }
    if m :| m in c.mounts && r == MountUnit(k, m) { if MountApply(k, m, h).ok { MountSettles(k, m, h); } }
    if f :| f in c.dropIns && r == DropInUnit(f) { DropInSettles(f, h); }
  }

  lemma BuildSettles(k: Kernel, c: Config)
    requires Lawful(k, c) && Sensible(c)
    ensures SettlesUnder(First(k, c), Leaving(k, c)) && SettlesUnder(Rest(k, c), Leaving(k, c))
  {
    forall r, h | r in Build(k, c) && Leaving(k, c)(h) ensures Leaving(k, c)(r.apply(h).state) && Settles(r, h) {
      LeavingStays(k, c, r, h);
      UnitSettles(k, c, r, h);
    }
    assert forall r :: r in First(k, c) || r in Rest(k, c) ==> r in Build(k, c);
  }

  // ---- which resource leaves which alone

  lemma RespectsKmod(k: Kernel, c: Config, q: Resource<Host>)
    requires Sensible(c) && q in Later(k, c)
    ensures Respects(q, KmodUnit(k, c.kmod))
  {
    LaterLeavesAlone(k, c, q);
    forall h ensures c.kmod.Check(q.apply(h).state) == c.kmod.Check(h) {
      KmodView(c.kmod, q.apply(h).state, h, LaterPaths(c));
    }
  }

  lemma KmodView(r: KernelModuleResource, a: Host, b: Host, paths: set<string>)
    requires a.procModules == b.procModules && a.unreadable == b.unreadable && SameElsewhere(a, b, paths)
    requires r.persistFile !in paths || r.persistFile == ""
    ensures r.Check(a) == r.Check(b)
  {
    if r.persistFile != "" { assert AtomicFile.Lookup(a.files, r.persistFile) == AtomicFile.Lookup(b.files, r.persistFile); }
  }

  /** Both hosts read the same in fstab. */
  lemma FstabView(a: Host, b: Host, paths: set<string>)
    requires a.unreadable == b.unreadable && SameElsewhere(a, b, paths) && FSTAB !in paths
    ensures ReadOrEmpty(a, FSTAB) == ReadOrEmpty(b, FSTAB)
  {
    assert AtomicFile.Lookup(a.files, FSTAB) == AtomicFile.Lookup(b.files, FSTAB);
  }

  lemma MountRespectsSwap(k: Kernel, m: MountSpec)
    requires m.fstabPersist ==> WellFormed(m)
    ensures Respects(MountUnit(k, m), SwapUnit(k))
  {
    forall h | Quiet(SwapUnit(k), h) ensures Quiet(SwapUnit(k), MountApply(k, m, h).state) {
      MountFrame(k, m, h);
      PersistKeeps(ReadOrEmpty(h, FSTAB), m, m.path);
    }
  }

  lemma MountRespectsMount(k: Kernel, m: MountSpec, other: MountSpec)
    requires m.fstabPersist ==> WellFormed(m)
    requires forall text, args, path, fstype :: Mounted(text, path, fstype) ==> Mounted(k.mount(text, args), path, fstype)
    ensures Respects(MountUnit(k, m), MountUnit(k, other))
  {
    forall h | Quiet(MountUnit(k, other), h) ensures Quiet(MountUnit(k, other), MountApply(k, m, h).state) {
      MountFrame(k, m, h);
      PersistKeeps(ReadOrEmpty(h, FSTAB), m, other.path);
    }
  }

  lemma DropInRespects(k: Kernel, f: DropIn, m: MountSpec)
    requires f.path != FSTAB
    ensures Respects(DropInUnit(f), SwapUnit(k)) && Respects(DropInUnit(f), MountUnit(k, m))
  {
    forall h ensures SwapCheck(WriteFile(h, f.path, f.content).state) == SwapCheck(h)
      ensures MountCheck(m, WriteFile(h, f.path, f.content).state) == MountCheck(m, h)
    {
      WriteFileFrame(h, f.path, f.content);
      FstabView(WriteFile(h, f.path, f.content).state, h, {f.path});
    }
  }

  lemma DropInRespectsDropIn(f: DropIn, g: DropIn)
    requires f.path == g.path ==> f.content == g.content
    ensures Respects(DropInUnit(f), DropInUnit(g))
  {
    forall h | DropInClean(g, h) ensures DropInClean(g, WriteFile(h, f.path, f.content).state) {
      var h' := WriteFile(h, f.path, f.content).state;
      WriteFileFrame(h, f.path, f.content);
      assert g.path != f.path ==> AtomicFile.Lookup(h'.files, g.path) == AtomicFile.Lookup(h.files, g.path);
    }
  }

  lemma AllRespectCgroup(qs: seq<Resource<Host>>)
    ensures AllRespect(qs, [CgroupUnit()])
  {}

  lemma MountsAndDropIns(k: Kernel, c: Config)
    requires Lawful(k, c) && Sensible(c)
    ensures Ordered(MountUnits(k, c.mounts) + DropInUnits(c.dropIns))
    ensures AllRespect(MountUnits(k, c.mounts) + DropInUnits(c.dropIns), [SwapUnit(k)])
  {
    var mounts, files := MountUnits(k, c.mounts), DropInUnits(c.dropIns);
    forall q, r | q in mounts && r in mounts ensures Respects(q, r) {
      MountMember(k, c.mounts, q);
      MountMember(k, c.mounts, r);
      var m, other :| m in c.mounts && q == MountUnit(k, m) && other in c.mounts && r == MountUnit(k, other);
      MountRespectsMount(k, m, other);
    }
    forall q, r | q in files && r in files ensures Respects(q, r) {
      DropInMember(c.dropIns, q);
      DropInMember(c.dropIns, r);
      var f, g :| f in c.dropIns && q == DropInUnit(f) && g in c.dropIns && r == DropInUnit(g);
      DropInRespectsDropIn(f, g);
    }
    forall q, r | q in files && r in mounts ensures Respects(q, r) {
      DropInMember(c.dropIns, q);
      MountMember(k, c.mounts, r);
      var f, m :| f in c.dropIns && q == DropInUnit(f) && m in c.mounts && r == MountUnit(k, m);
      DropInRespects(k, f, m);
    }
    OrderedConcat(mounts, files);
    forall q | q in mounts + files ensures Respects(q, SwapUnit(k)) { RespectsSwap(k, c, q); }
  }

  lemma RespectsSwap(k: Kernel, c: Config, q: Resource<Host>)
    requires Sensible(c) && q in MountUnits(k, c.mounts) + DropInUnits(c.dropIns)
    ensures Respects(q, SwapUnit(k))
  {
    MountMember(k, c.mounts, q);
    DropInMember(c.dropIns, q);
    if m :| m in c.mounts && q == MountUnit(k, m) {
      MountRespectsSwap(k, m);
    } else {
      var f :| f in c.dropIns && q == DropInUnit(f);
      DropInRespects(k, f, MountSpec("", "", "", "", "", false));
    }
  }

  lemma LaterOrdered(k: Kernel, c: Config)
    requires Lawful(k, c) && Sensible(c)
    ensures Ordered(Later(k, c))
  {
    var swap, cgroup := Included(c.parts.swap, SwapUnit(k)), Included(c.parts.cgroup, CgroupUnit());
    var others := MountUnits(k, c.mounts) + DropInUnits(c.dropIns);
    MountsAndDropIns(k, c);
    AllRespectCgroup(others);
    OrderedConcat(cgroup, others);
    RespectConcat(cgroup, others, [SwapUnit(k)]);
    assert AllRespect([CgroupUnit()], [SwapUnit(k)]);
    assert AllRespect(cgroup + others, swap);
    OrderedConcat(swap, cgroup + others);
  }

  /** From the modules on, every resource leaves those before it as settled as they were. */
  lemma RestOrdered(k: Kernel, c: Config)
    requires Lawful(k, c) && Sensible(c)
    ensures Ordered(Rest(k, c))
  {
    LaterOrdered(k, c);
    forall q | q in Later(k, c) ensures Respects(q, KmodUnit(k, c.kmod)) { RespectsKmod(k, c, q); }
    OrderedConcat(Included(c.parts.kmod, KmodUnit(k, c.kmod)), Later(k, c));
  }

  /** What the others check reads the same after sysctl. */
  lemma SysctlView(k: Kernel, c: Config, h: Host, m: MountSpec)
    requires Sensible(c)
    ensures var h' := c.sysctl.Apply(k, h).0;
      c.kmod.Check(h') == c.kmod.Check(h) && SwapCheck(h') == SwapCheck(h) && MountCheck(m, h') == MountCheck(m, h)
  {
    var h', p := c.sysctl.Apply(k, h).0, c.sysctl.persistFile;
    SysctlFrame(k, c.sysctl, h);
    FstabView(h', h, {p});
    KmodView(c.kmod, h', h, {p});
    FstabChecks(h', h, m);
  }

  lemma FstabChecks(a: Host, b: Host, m: MountSpec)
    requires a.unreadable == b.unreadable && a.broken == b.broken && ReadOrEmpty(a, FSTAB) == ReadOrEmpty(b, FSTAB)
    requires a.procSwaps == b.procSwaps && a.swapUnits == b.swapUnits && a.procMounts == b.procMounts
    ensures SwapCheck(a) == SwapCheck(b) && MountCheck(m, a) == MountCheck(m, b)
  {}

  lemma SysctlKeepsDropIn(k: Kernel, c: Config, h: Host, f: DropIn)
    requires Sensible(c) && f in c.dropIns
    ensures DropInClean(f, c.sysctl.Apply(k, h).0) == DropInClean(f, h)
  {
    var h' := c.sysctl.Apply(k, h).0;
    SysctlFrame(k, c.sysctl, h);
    assert AtomicFile.Lookup(h'.files, f.path) == AtomicFile.Lookup(h.files, f.path);
  }

  /** Sysctl leaves all the others as settled as they were. */
  lemma SysctlRespects(k: Kernel, c: Config, r: Resource<Host>)
    requires Sensible(c) && r in Rest(k, c)
    ensures Respects(SysctlUnit(k, c.sysctl), r)
  {
    Members(k, c, r);
    LaterMember(k, c, r);
    SysctlRespectsMount(k, c, MountSpec("", "", "", "", "", false));
    if m :| m in c.mounts && r == MountUnit(k, m) { SysctlRespectsMount(k, c, m); }
    if f :| f in c.dropIns && r == DropInUnit(f) { SysctlRespectsDropIn(k, c, f); }
  }

  lemma SysctlRespectsMount(k: Kernel, c: Config, m: MountSpec)
    requires Sensible(c)
    ensures Respects(SysctlUnit(k, c.sysctl), KmodUnit(k, c.kmod)) && Respects(SysctlUnit(k, c.sysctl), SwapUnit(k))
    ensures Respects(SysctlUnit(k, c.sysctl), MountUnit(k, m)) && Respects(SysctlUnit(k, c.sysctl), CgroupUnit())
  {
    forall h
      ensures var h' := c.sysctl.Apply(k, h).0;
        c.kmod.Check(h') == c.kmod.Check(h) && SwapCheck(h') == SwapCheck(h) && MountCheck(m, h') == MountCheck(m, h)
    {
      SysctlView(k, c, h, m);
    }
  }

  lemma SysctlRespectsDropIn(k: Kernel, c: Config, f: DropIn)
    requires Sensible(c) && f in c.dropIns
    ensures Respects(SysctlUnit(k, c.sysctl), DropInUnit(f))
  {
    forall h ensures DropInClean(f, c.sysctl.Apply(k, h).0) == DropInClean(f, h) { SysctlKeepsDropIn(k, c, h, f); }
  }

  lemma FirstRespects(k: Kernel, c: Config)
    requires Sensible(c)
    ensures AllRespect(First(k, c), Rest(k, c))
  {
    forall r | r in Rest(k, c) ensures Respects(SysctlUnit(k, c.sysctl), r) { SysctlRespects(k, c, r); }
  }

  // ---- whole passes, whatever fails

  /** A kernel, a configuration and a host that the theorems speak of; anything on the host may fail. */
  ghost predicate Ready(k: Kernel, c: Config, h: Host) { Lawful(k, c) && Sensible(c) && Leaving(k, c)(h) }

  /** No resource of the run finds anything to do. */
  ghost predicate AllClean(k: Kernel, c: Config, h: Host) { forall r :: r in Build(k, c) ==> Quiet(r, h) }

  /** What the sysctl resource is for: every wanted key whose file exists reads with the wanted fields, and the drop-in
      renders the settings. */
  ghost predicate SysctlInPlace(r: SysctlResource, h: Host) {
    && (forall key :: key in r.settings && SysctlPath(r.root, key) in h.sysctls ==>
          && SysctlPath(r.root, key) !in h.unreadable
          && Fields(h.sysctls[SysctlPath(r.root, key)]) == Fields(r.settings[key]))
    && (r.persistFile != "" ==> HasText(h, r.persistFile, Sysctl.RenderFile(r.settings)))
  }

  predicate HasText(h: Host, path: string, text: string) { path !in h.unreadable && path in h.files && h.files[path] == text }

  /** What a run is for, said of the host's texts alone. */
  ghost predicate Converged(c: Config, h: Host) {
    && (c.parts.sysctl ==> SysctlInPlace(c.sysctl, h))
    && (c.parts.kmod && c.kmod.modules != [] ==> PROC_MODULES !in h.unreadable && c.kmod.InPlace(h))
    && (c.parts.swap ==> PROC_SWAPS !in h.unreadable && SwapIsOff(h))
    && (forall m :: m in c.mounts ==> PROC_MOUNTS !in h.unreadable && MountInPlace(m, h))
    && (forall f :: f in c.dropIns ==> HasText(h, f.path, f.content))
  }

  lemma SysctlCleanMeans(r: SysctlResource, h: Host)
    ensures r.Clean(h) <==> SysctlInPlace(r, h)
  {
    ReadIs(h, r.persistFile, Sysctl.RenderFile(r.settings));
    assert forall key :: r.PathOf(key) == SysctlPath(r.root, key);
  }

  lemma SysctlMeans(k: Kernel, r: SysctlResource, h: Host)
    ensures Quiet(SysctlUnit(k, r), h) <==> SysctlInPlace(r, h)
  {
    SysctlCleanMeans(r, h);
    r.CleanIff(h);
  }

  lemma ReadIs(h: Host, path: string, text: string)
    ensures ReadFile(h, path) == Content(text) <==> HasText(h, path, text)
  {}

  lemma KmodMeans(k: Kernel, r: KernelModuleResource, h: Host)
    ensures Quiet(KmodUnit(k, r), h) <==> (r.modules != [] ==> PROC_MODULES !in h.unreadable && r.InPlace(h))
  {
    r.CheckIff(h);
  }

  lemma SwapMeans(k: Kernel, h: Host)
    ensures Quiet(SwapUnit(k), h) <==> PROC_SWAPS !in h.unreadable && SwapIsOff(h)
  {
    SwapCheckIff(h);
  }

  /** The run's resources, part by part. */
  lemma CleanParts(k: Kernel, c: Config, h: Host)
    ensures AllClean(k, c, h) <==>
      && (c.parts.sysctl ==> Quiet(SysctlUnit(k, c.sysctl), h)) && (c.parts.kmod ==> Quiet(KmodUnit(k, c.kmod), h))
      && (c.parts.swap ==> Quiet(SwapUnit(k), h)) && (c.parts.cgroup ==> Quiet(CgroupUnit(), h))
      && (forall m :: m in c.mounts ==> Quiet(MountUnit(k, m), h)) && (forall f :: f in c.dropIns ==> Quiet(DropInUnit(f), h))
  {
    forall r ensures r in Build(k, c) <==> IsUnit(k, c, r) {
      Members(k, c, r);
      LaterMember(k, c, r);
    }
    if AllClean(k, c, h) {
      forall m | m in c.mounts ensures Quiet(MountUnit(k, m), h) { assert IsUnit(k, c, MountUnit(k, m)); }
      forall f | f in c.dropIns ensures Quiet(DropInUnit(f), h) { assert IsUnit(k, c, DropInUnit(f)); }
      assert c.parts.sysctl ==> IsUnit(k, c, SysctlUnit(k, c.sysctl));
      assert c.parts.kmod ==> IsUnit(k, c, KmodUnit(k, c.kmod));
      assert c.parts.swap ==> IsUnit(k, c, SwapUnit(k));
      assert c.parts.cgroup ==> IsUnit(k, c, CgroupUnit());
    }
  }

  ghost predicate IsUnit(k: Kernel, c: Config, r: Resource<Host>) {
    || (c.parts.sysctl && r == SysctlUnit(k, c.sysctl)) || (c.parts.kmod && r == KmodUnit(k, c.kmod))
    || (c.parts.swap && r == SwapUnit(k)) || (c.parts.cgroup && r == CgroupUnit())
    || (exists m :: m in c.mounts && r == MountUnit(k, m)) || (exists f :: f in c.dropIns && r == DropInUnit(f))
  }

  lemma MountMeans(k: Kernel, m: MountSpec, h: Host)
    ensures Quiet(MountUnit(k, m), h) <==> PROC_MOUNTS !in h.unreadable && MountInPlace(m, h)
  {
    MountCheckIff(m, h);
  }

  lemma DropInMeans(f: DropIn, h: Host)
    ensures Quiet(DropInUnit(f), h) <==> HasText(h, f.path, f.content)
  {}

  /** Control groups are only reported on. */
  lemma CgroupIsQuiet(h: Host)
    ensures Quiet(CgroupUnit(), h)
    ensures CgroupUnit().check(h).status == RebootRequired <==> !h.cgroupV2
    ensures CgroupUnit().check(h).status == Unchanged <==> h.cgroupV2
  {}

  /** No Check finds anything to do exactly when everything is in place. */
  lemma CleanMeans(k: Kernel, c: Config, h: Host)
    ensures AllClean(k, c, h) <==> Converged(c, h)
  {
    CleanParts(k, c, h);
    SysctlMeans(k, c.sysctl, h);
    KmodMeans(k, c.kmod, h);
    SwapMeans(k, h);
    CgroupIsQuiet(h);
    forall m ensures Quiet(MountUnit(k, m), h) <==> PROC_MOUNTS !in h.unreadable && MountInPlace(m, h) { MountMeans(k, m, h); }
    forall f ensures Quiet(DropInUnit(f), h) <==> HasText(h, f.path, f.content) { DropInMeans(f, h); }
  }

  /** A failure in one resource does not stop the rest: after a pass on any host, every resource but sysctl that was not
      reported as failed has nothing left to do. */
  lemma FailureDoesNotSpread(k: Kernel, c: Config, h: Host)
    requires Ready(k, c, h)
    ensures UnfailedAreQuiet(First(k, c), Rest(k, c), h)
    ensures Leaving(k, c)(ApplyPass(k, c, h))
  {
    BuildIsHonest(k, c);
    BuildSettles(k, c);
    RestOrdered(k, c);
    RestIsolated(First(k, c), Rest(k, c), h, Leaving(k, c));
  }

  /** After a pass without a failure all but sysctl are quiet. */
  lemma RestIsQuiet(k: Kernel, c: Config, h: Host)
    requires Ready(k, c, h) && NoneFailed(Results(Build(k, c), h, ModeApply))
    ensures forall r :: r in Rest(k, c) ==> Quiet(r, ApplyPass(k, c, h))
  {
    BuildIsHonest(k, c);
    BuildSettles(k, c);
    RestOrdered(k, c);
    RestQuiet(First(k, c), Rest(k, c), h, Leaving(k, c));
  }

  /** Two passes without a failure, from any host and for any map from modules to the sysctl files they expose, leave
      nothing to do and everything in place. */
  lemma TwoPassesConverge(k: Kernel, c: Config, h: Host)
    requires Ready(k, c, h)
    requires NoneFailed(Results(Build(k, c), h, ModeApply)) && NoneFailed(Results(Build(k, c), ApplyPass(k, c, h), ModeApply))
    ensures var h2 := ApplyPass(k, c, ApplyPass(k, c, h)); AllClean(k, c, h2) && Converged(c, h2)
  {
    CleanMeans(k, c, ApplyPass(k, c, ApplyPass(k, c, h)));
    BuildIsHonest(k, c);
    BuildSettles(k, c);
    RestOrdered(k, c);
    FirstRespects(k, c);
    TwoRunsSettle(First(k, c), Rest(k, c), h, Leaving(k, c));
  }

  /** On a clean host a further run changes nothing, reports nothing changed or pending, and exits 0 in both modes. */
  lemma CleanIsFixedPoint(k: Kernel, c: Config, h: Host, mode: Mode)
    requires AllClean(k, c, h)
    ensures FinalState(Build(k, c), h, mode) == h
    ensures AllQuiet(Results(Build(k, c), h, mode)) && ExitCodeOf(Results(Build(k, c), h, mode), mode) == 0
  {
    QuietRun(Build(k, c), h, mode);
  }

  /** So the third run, in either mode, changes nothing, reports nothing pending and exits 0. */
  lemma ThirdRunIsQuiet(k: Kernel, c: Config, h: Host, mode: Mode)
    requires Ready(k, c, h)
    requires NoneFailed(Results(Build(k, c), h, ModeApply)) && NoneFailed(Results(Build(k, c), ApplyPass(k, c, h), ModeApply))
    ensures var h2 := ApplyPass(k, c, ApplyPass(k, c, h));
      && FinalState(Build(k, c), h2, mode) == h2
      && AllQuiet(Results(Build(k, c), h2, mode)) && ExitCodeOf(Results(Build(k, c), h2, mode), mode) == 0
  {
    TwoPassesConverge(k, c, h);
    CleanIsFixedPoint(k, c, ApplyPass(k, c, ApplyPass(k, c, h)), mode);
  }

  // ---- when one pass is enough

  /** The sysctl files that loading the configured modules brings to this host. */
  function Exposures(k: Kernel, c: Config, h: Host): map<string, string> {
    if c.parts.kmod then c.kmod.Exposed(k, c.kmod.WantModules(), Loaded(h.procModules)) else map[]
  }

  /** A wanted key that is absent now, and that a module to be loaded brings with some other value, or unreadable. */
  ghost predicate Pending(k: Kernel, c: Config, h: Host, key: string) {
    && c.parts.sysctl && key in c.sysctl.settings && !c.sysctl.Exists(h, key)
    && c.sysctl.PathOf(key) in Exposures(k, c, h)
    && (Fields(Exposures(k, c, h)[c.sysctl.PathOf(key)]) != Fields(c.sysctl.settings[key]) || c.sysctl.PathOf(key) in h.unreadable)
  }

  lemma {:induction false} NothingExposed(k: Kernel, r: KernelModuleResource, want: seq<string>, loaded: set<string>)
    requires forall m :: m in want ==> m in loaded
    ensures r.Exposed(k, want, loaded) == map[]
  {
    if want != [] {
      assert want[0] in want;
      NothingExposed(k, r, want[1..], loaded);
    }
  }

  lemma CleanExposesNothing(k: Kernel, c: Config, h: Host)
    requires c.parts.kmod ==> c.kmod.modules == [] || c.kmod.Missing(h) == {}
    ensures Exposures(k, c, h) == map[]
  {
    Sorting.LexOrder();
    Sorting.SortMembers(Sorting.LexLe, c.kmod.modules);
    if c.parts.kmod {
      forall m | m in c.kmod.WantModules() ensures m in Loaded(h.procModules) { assert m !in c.kmod.Missing(h); }
      NothingExposed(k, c.kmod, c.kmod.WantModules(), Loaded(h.procModules));
    }
  }

  /** What the module step brings, when it does not fail: exactly the exposed files, existing ones as they were. */
  lemma KmodStep(k: Kernel, c: Config, h: Host)
    requires ModprobeKeeps(k) && c.parts.kmod && StepOutcome(KmodUnit(k, c.kmod), h, ModeApply).status != Failed
    ensures var h' := StepState(KmodUnit(k, c.kmod), h, ModeApply);
      h' == h.(procModules := h'.procModules, sysctls := Exposures(k, c, h) + h.sysctls, files := h'.files)
      && SameElsewhere(h', h, {c.kmod.persistFile})
  {
    var r := c.kmod;
    if r.Check(h) == Checked(WouldChange, false) {
      KmodFrame(k, r, h);
      r.LoadAllEffect(k, r.WantModules(), Loaded(h.procModules), h);
      WriteFileEffect(r.LoadAll(k, r.WantModules(), Loaded(h.procModules), h).state, r.persistFile, KernelModules.RenderFile(r.WantModules()));
    } else {
      CleanExposesNothing(k, c, h);
      assert map[] + h.sysctls == h.sysctls;
    }
  }

  lemma LaterRun(k: Kernel, c: Config, h: Host)
    ensures var h' := FinalState(Later(k, c), h, ModeApply);
      h'.sysctls == h.sysctls && SameFaults(h', h) && SameElsewhere(h', h, LaterPaths(c))
  {
    var inv := (x: Host) => x.sysctls == h.sysctls && SameFaults(x, h) && SameElsewhere(x, h, LaterPaths(c));
    forall q, x | q in Later(k, c) && inv(x) ensures inv(q.apply(x).state) {
      LaterLeavesAlone(k, c, q);
      var x' := q.apply(x).state;
      assert x'.sysctls == x.sysctls && SameFaults(x', x) && SameElsewhere(x', x, LaterPaths(c));
    }
    RunKeeps(Later(k, c), h, ModeApply, inv);
  }

  /** The host after sysctl. */
  function S1(k: Kernel, c: Config, h: Host): Host { FinalState(First(k, c), h, ModeApply) }

  lemma SplitPass(k: Kernel, c: Config, h: Host)
    requires NoneFailed(Results(Build(k, c), h, ModeApply))
    ensures NoneFailed(Results(First(k, c), h, ModeApply)) && NoneFailed(Results(Rest(k, c), S1(k, c, h), ModeApply))
    ensures ApplyPass(k, c, h) == FinalState(Rest(k, c), S1(k, c, h), ModeApply)
  {
    RunConcat(First(k, c), Rest(k, c), h, ModeApply);
    AllQuietConcat(Results(First(k, c), h, ModeApply), Results(Rest(k, c), S1(k, c, h), ModeApply));
  }

  lemma SysctlRun(k: Kernel, c: Config, h: Host)
    ensures var s1 := S1(k, c, h);
      s1 == h.(sysctls := s1.sysctls, files := s1.files) && s1.sysctls.Keys == h.sysctls.Keys
  {
    SysctlFrame(k, c.sysctl, h);
    if c.parts.sysctl {
      var u := SysctlUnit(k, c.sysctl);
      assert First(k, c) == [u] && [u][1..] == [];
      assert FinalState([u], h, ModeApply) == FinalState([], StepState(u, h, ModeApply), ModeApply);
    }
  }

  /** What a pass without a failure does to sysctls: the sweep's values overlaid on what new modules exposed. */
  lemma RestEffect(k: Kernel, c: Config, h: Host)
    requires Lawful(k, c) && NoneFailed(Results(Rest(k, c), h, ModeApply))
    ensures var h' := FinalState(Rest(k, c), h, ModeApply);
      h'.sysctls == Exposures(k, c, h) + h.sysctls && SameFaults(h', h) && SameElsewhere(h', h, LaterPaths(c) + {c.kmod.persistFile})
  {
    var kmod := Included(c.parts.kmod, KmodUnit(k, c.kmod));
    var s2 := FinalState(kmod, h, ModeApply);
    RunConcat(kmod, Later(k, c), h, ModeApply);
    AllQuietConcat(Results(kmod, h, ModeApply), Results(Later(k, c), s2, ModeApply));
    LaterRun(k, c, s2);
    KmodRun(k, c, h);
  }

  lemma KmodRun(k: Kernel, c: Config, h: Host)
    requires ModprobeKeeps(k) && NoneFailed(Results(Included(c.parts.kmod, KmodUnit(k, c.kmod)), h, ModeApply))
    ensures var h' := FinalState(Included(c.parts.kmod, KmodUnit(k, c.kmod)), h, ModeApply);
      h'.sysctls == Exposures(k, c, h) + h.sysctls && SameFaults(h', h) && SameElsewhere(h', h, {c.kmod.persistFile})
  {
    if c.parts.kmod {
      var u := KmodUnit(k, c.kmod);
      assert [u][1..] == [];
      assert FinalState([u], h, ModeApply) == FinalState([], StepState(u, h, ModeApply), ModeApply);
      assert Results([u], h, ModeApply)[0] == StepOutcome(u, h, ModeApply);
      KmodStep(k, c, h);
    } else {
      assert map[] + h.sysctls == h.sysctls;
    }
  }

  /** One pass without a failure: what becomes of the sysctls, and that all other resources are quiet. */
  lemma PassEffect(k: Kernel, c: Config, h: Host)
    requires Ready(k, c, h) && NoneFailed(Results(Build(k, c), h, ModeApply))
    ensures var h', s1 := ApplyPass(k, c, h), S1(k, c, h);
      && (c.parts.sysctl ==> c.sysctl.Clean(s1)) && s1.sysctls.Keys == h.sysctls.Keys
      && h'.sysctls == Exposures(k, c, h) + s1.sysctls && h'.unreadable == h.unreadable
      && (c.parts.sysctl ==> !c.sysctl.PersistNeeded(h'))
      && forall r :: r in Rest(k, c) ==> Quiet(r, h')
  {
    var s1 := S1(k, c, h);
    SplitPass(k, c, h);
    SysctlRun(k, c, h);
    RestIsQuiet(k, c, h);
    RestEffect(k, c, s1);
    if c.parts.sysctl {
      SysctlClean(k, c, h);
      PersistStays(c, s1, ApplyPass(k, c, h));
    }
  }

  lemma SysctlClean(k: Kernel, c: Config, h: Host)
    requires Ready(k, c, h) && c.parts.sysctl && NoneFailed(Results(First(k, c), h, ModeApply))
    ensures c.sysctl.Clean(S1(k, c, h))
  {
    BuildIsHonest(k, c);
    BuildSettles(k, c);
    FirstSettles(First(k, c), h, Leaving(k, c));
    assert SysctlUnit(k, c.sysctl) in First(k, c);
    c.sysctl.CleanIff(S1(k, c, h));
  }

  lemma PersistStays(c: Config, a: Host, b: Host)
    requires Sensible(c) && !c.sysctl.PersistNeeded(a) && SameFaults(b, a) && SameElsewhere(b, a, LaterPaths(c) + {c.kmod.persistFile})
    ensures !c.sysctl.PersistNeeded(b)
  {
    var p := c.sysctl.persistFile;
    if p != "" {
      assert p !in LaterPaths(c) + {c.kmod.persistFile};
      assert AtomicFile.Lookup(b.files, p) == AtomicFile.Lookup(a.files, p);
    }
  }

  /** A pass without a failure converges exactly when loading the missing modules exposed no wanted key unreadable or
      with another value. */
  lemma OnePassIff(k: Kernel, c: Config, h: Host)
    requires Ready(k, c, h) && NoneFailed(Results(Build(k, c), h, ModeApply))
    ensures AllClean(k, c, ApplyPass(k, c, h)) <==> forall key :: !Pending(k, c, h, key)
    ensures Converged(c, ApplyPass(k, c, h)) <==> forall key :: !Pending(k, c, h, key)
  {
    CleanMeans(k, c, ApplyPass(k, c, h));
    PassEffect(k, c, h);
    if c.parts.sysctl {
      LiveCleanIff(k, c, h);
      c.sysctl.CleanIff(ApplyPass(k, c, h));
    }
    CleanUpToSysctl(k, c, ApplyPass(k, c, h));
  }

  lemma CleanUpToSysctl(k: Kernel, c: Config, h: Host)
    requires forall r :: r in Rest(k, c) ==> Quiet(r, h)
    ensures AllClean(k, c, h) <==> (c.parts.sysctl ==> Quiet(SysctlUnit(k, c.sysctl), h))
  {
    forall r ensures r in Build(k, c) <==> (c.parts.sysctl && r == SysctlUnit(k, c.sysctl)) || r in Rest(k, c) { Members(k, c, r); }
  }

  lemma LiveCleanIff(k: Kernel, c: Config, h: Host)
    requires Ready(k, c, h) && NoneFailed(Results(Build(k, c), h, ModeApply)) && c.parts.sysctl
    ensures c.sysctl.Clean(ApplyPass(k, c, h)) <==> forall key :: !Pending(k, c, h, key)
  {
    var r, h' := c.sysctl, ApplyPass(k, c, h);
    PassEffect(k, c, h);
    if r.Clean(h') {
      forall key ensures !Pending(k, c, h, key) {
        if key in r.settings && r.PathOf(key) in Exposures(k, c, h) { LiveAfterPass(k, c, h, key); }
      }
    }
    if forall key :: !Pending(k, c, h, key) {
      forall key | key in r.settings && r.Exists(h', key) ensures r.PathOf(key) !in h'.unreadable && r.Holds(h', key) {
        LiveAfterPass(k, c, h, key);
      }
    }
  }

  lemma LiveAfterPass(k: Kernel, c: Config, h: Host, key: string)
    requires Ready(k, c, h) && NoneFailed(Results(Build(k, c), h, ModeApply)) && c.parts.sysctl
    requires key in c.sysctl.settings && c.sysctl.Exists(ApplyPass(k, c, h), key)
    ensures var h' := ApplyPass(k, c, h);
      c.sysctl.PathOf(key) !in h'.unreadable && c.sysctl.Holds(h', key) <==> !Pending(k, c, h, key)
  {
    PassEffect(k, c, h);
    SysctlRun(k, c, h);
    var s1 := S1(k, c, h);
    if c.sysctl.Exists(s1, key) { assert c.sysctl.Holds(s1, key); }
  }

  /** In particular when no module exposes a wanted key that was absent. */
  lemma OnePassSuffices(k: Kernel, c: Config, h: Host)
    requires Ready(k, c, h) && NoneFailed(Results(Build(k, c), h, ModeApply))
    requires forall key :: key in c.sysctl.settings && !c.sysctl.Exists(h, key) ==> c.sysctl.PathOf(key) !in Exposures(k, c, h)
    ensures AllClean(k, c, ApplyPass(k, c, h))
  {
    OnePassIff(k, c, h);
  }

  /** The second `apply` reports no change exactly under the one-pass condition. */
  lemma SecondRunQuietIff(k: Kernel, c: Config, h: Host)
    requires Ready(k, c, h) && NoneFailed(Results(Build(k, c), h, ModeApply))
    ensures AllQuiet(Results(Build(k, c), ApplyPass(k, c, h), ModeApply)) <==> forall key :: !Pending(k, c, h, key)
  {
    var h' := ApplyPass(k, c, h);
    OnePassIff(k, c, h);
    RestIsQuiet(k, c, h);
    BuildIsHonest(k, c);
    FirstRespects(k, c);
    OnlyFirstMoves(First(k, c), Rest(k, c), h');
    CleanUpToSysctl(k, c, h');
  }

  // ---- hosts on which nothing fails

  /** Everything reads, writes are whole and every command runs; systemd may be unable to list units. */
  predicate Healthy(h: Host) { h.unreadable == {} && h.unwritable == {} && h.broken <= {LIST_UNITS} && h.short == map[] }

  lemma DriftReads(r: SysctlResource, keys: seq<string>, h: Host)
    requires h.unreadable == {} && forall key :: key in keys ==> key in r.settings
    ensures r.DriftAmong(h, keys).Some?
  {}

  lemma {:induction false} SweepSucceeds(k: Kernel, r: SysctlResource, keys: seq<string>, h: Host)
    requires h.unwritable == {} && forall key :: key in keys ==> key in r.settings
    ensures r.ApplyKeys(k, keys, h).1 == None
    decreases |keys|
  {
    if keys != [] {
      assert keys[0] in keys;
      var path := r.PathOf(keys[0]);
      SweepSucceeds(k, r, keys[1..], h);
      SweepSucceeds(k, r, keys[1..], h.(sysctls := h.sysctls[path := k.echo(path, r.settings[keys[0]])]));
    }
  }

  lemma SysctlSucceeds(k: Kernel, r: SysctlResource, h: Host)
    requires Healthy(h)
    ensures r.Apply(k, h).1 == None && r.Check(h).status != Failed
  {
    SweepSucceeds(k, r, r.Keys(), h);
    r.SweepFrame(k, r.Keys(), h);
    WriteFileEffect(r.ApplyKeys(k, r.Keys(), h).0, r.persistFile, Sysctl.RenderFile(r.settings));
    DriftReads(r, r.Keys(), h);
  }

  lemma {:induction false} LoadsSucceed(k: Kernel, r: KernelModuleResource, want: seq<string>, loaded: set<string>, h: Host)
    requires h.broken <= {LIST_UNITS}
    ensures r.LoadAll(k, want, loaded, h).ok
    decreases |want|
  {
    if want != [] {
      assert |["modprobe", want[0]]| != |LIST_UNITS|;
      LoadsSucceed(k, r, want[1..], loaded, h);
      LoadsSucceed(k, r, want[1..], loaded, Modprobe(k, h, want[0]));
    }
  }

  lemma KmodSucceeds(k: Kernel, r: KernelModuleResource, h: Host)
    requires Healthy(h)
    ensures r.Apply(k, h).ok && r.Check(h).status != Failed
  {
    var want, loaded := r.WantModules(), Loaded(h.procModules);
    LoadsSucceed(k, r, want, loaded, h);
    LoadAllFrame(k, r, want, loaded, h);
    WriteFileEffect(r.LoadAll(k, want, loaded, h).state, r.persistFile, KernelModules.RenderFile(want));
  }

  lemma ReplaceSucceeds(h: Host, content: string)
    requires Healthy(h)
    ensures ReplaceFstab(h, content).ok
  {
    WriteFileEffect(Backup(h).state, FSTAB, content);
  }

  lemma {:induction false} MasksSucceed(k: Kernel, units: seq<string>, h: Host)
    requires h.broken <= {LIST_UNITS}
    ensures MaskUnits(k, units, h).ok
    decreases |units|
  {
    if units != [] {
      assert |["systemctl", "mask", units[0]]| != |LIST_UNITS|;
      MasksSucceed(k, units[1..], h.(swapUnits := k.mask(h.swapUnits, units[0])));
    }
  }

  lemma SwapSucceeds(k: Kernel, h: Host)
    requires Healthy(h)
    ensures SwapApply(k, h).ok && SwapCheck(h).status != Failed
  {
    var off := SwapOff(k, h).state;
    assert |["swapoff", "-a"]| != |LIST_UNITS|;
    SwapOffFrame(k, h);
    ReplaceSucceeds(off, CommentSwap(ReadOrEmpty(off, FSTAB)));
    var edited := CommentFstab(off).state;
    CommentFrame(off);
    MasksSucceed(k, SwapUnits(edited), edited);
  }

  lemma MountSucceeds(k: Kernel, m: MountSpec, h: Host)
    requires Healthy(h)
    ensures MountApply(k, m, h).ok && MountCheck(m, h).status != Failed
  {
    assert MountCommand(m)[0] == "mount" && LIST_UNITS[0] == "systemctl";
    var mounted := MountStep(k, m, h).state;
    ReplaceSucceeds(mounted, AppendEntry(ReadOrEmpty(mounted, FSTAB), m));
  }

  lemma LaterSucceeds(k: Kernel, c: Config, r: Resource<Host>, h: Host)
    requires Healthy(h) && r in Later(k, c)
    ensures r.check(h).status != Failed && (r.check(h) == Checked(WouldChange, false) ==> r.apply(h).ok)
    ensures Healthy(r.apply(h).state)
  {
    LaterMember(k, c, r);
    LaterLeavesAlone(k, c, r);
    if r == SwapUnit(k) { SwapSucceeds(k, h); }
    if m :| m in c.mounts && r == MountUnit(k, m) { MountSucceeds(k, m, h); }
    if f :| f in c.dropIns && r == DropInUnit(f) { WriteFileEffect(h, f.path, f.content); }
  }

  lemma UnitSucceeds(k: Kernel, c: Config, r: Resource<Host>, h: Host)
    requires Healthy(h) && r in Build(k, c)
    ensures r.check(h).status != Failed && (r.check(h) == Checked(WouldChange, false) ==> r.apply(h).ok)
    ensures Healthy(r.apply(h).state)
  {
    Members(k, c, r);
    if r in Later(k, c) {
      LaterSucceeds(k, c, r, h);
    } else if r == SysctlUnit(k, c.sysctl) {
      SysctlSucceeds(k, c.sysctl, h);
      SysctlFrame(k, c.sysctl, h);
    } else {
      KmodSucceeds(k, c.kmod, h);
      KmodFrame(k, c.kmod, h);
    }
  }

  /** On such a host no run fails, and the host stays one. */
  lemma HealthyRunSucceeds(k: Kernel, c: Config, h: Host)
    requires Healthy(h)
    ensures NoneFailed(Results(Build(k, c), h, ModeApply)) && Healthy(ApplyPass(k, c, h))
  {
    var inv := (x: Host) => Healthy(x);
    forall r, x | r in Build(k, c) && inv(x)
      ensures r.check(x).status != Failed && (r.check(x) == Checked(WouldChange, false) ==> r.apply(x).ok) && inv(r.apply(x).state)
    {
      UnitSucceeds(k, c, r, x);
    }
    SoundRun(Build(k, c), h, inv);
  }

  /** So two passes always converge, and one does exactly under the condition above. */
  lemma HealthyConverges(k: Kernel, c: Config, h: Host)
    requires Ready(k, c, h) && Healthy(h)
    ensures AllClean(k, c, ApplyPass(k, c, ApplyPass(k, c, h)))
    ensures AllClean(k, c, ApplyPass(k, c, h)) <==> forall key :: !Pending(k, c, h, key)
  {
    HealthyRunSucceeds(k, c, h);
    HealthyRunSucceeds(k, c, ApplyPass(k, c, h));
    TwoPassesConverge(k, c, h);
    OnePassIff(k, c, h);
  }
}
