/** The resources over one shared host, in the engine's order, and what filters leave of them. */
module HostUnits {
  import opened Numbers
  import opened Text
  import opened Engine
  import opened HostState
  import opened Fstab
  import opened FstabHistory
  import opened Sysctl
  import opened KernelModules
  import opened SwapMount

  /** A rendered file, written when it differs. */
  datatype DropIn = DropIn(name: string, path: string, content: string)

  /** Which of the first four resources a run includes. */
  datatype Parts = Parts(sysctl: bool, kmod: bool, swap: bool, cgroup: bool)

  datatype Config = Config(
    sysctl: SysctlResource, kmod: KernelModuleResource, mounts: seq<MountSpec>, dropIns: seq<DropIn>, parts: Parts)

  // ---- the resources, in the engine's order

  function SysctlUnit(k: Kernel, r: SysctlResource): Resource<Host> {
    Resource("sysctl", (h: Host) => r.Check(h), (h: Host) => var (h', failure) := r.Apply(k, h); Applied(h', failure.None?))
  }

  function KmodUnit(k: Kernel, r: KernelModuleResource): Resource<Host> {
    Resource("kernel-modules", (h: Host) => r.Check(h), (h: Host) => r.Apply(k, h))
  }

  function SwapUnit(k: Kernel): Resource<Host> {
    Resource("swap", (h: Host) => SwapCheck(h), (h: Host) => SwapApply(k, h))
  }

  /** Only a reboot can change the hierarchy, so Apply does nothing. */
  function CgroupUnit(): Resource<Host> {
    Resource("cgroup-v2",
      (h: Host) => Checked(if h.cgroupV2 then Unchanged else RebootRequired, false), (h: Host) => Applied(h, true))
  }

  function MountUnit(k: Kernel, m: MountSpec): Resource<Host> {
    Resource(m.name, (h: Host) => MountCheck(m, h), (h: Host) => MountApply(k, m, h))
  }

  function MountUnits(k: Kernel, mounts: seq<MountSpec>): seq<Resource<Host>> {
    if mounts == [] then [] else [MountUnit(k, mounts[0])] + MountUnits(k, mounts[1..])
  }

  function DropInUnit(f: DropIn): Resource<Host> {
    Resource(f.name,
      (h: Host) => Checked(if DropInClean(f, h) then Unchanged else WouldChange, false), (h: Host) => WriteFile(h, f.path, f.content))
  }

  function DropInUnits(files: seq<DropIn>): seq<Resource<Host>> {
    if files == [] then [] else [DropInUnit(files[0])] + DropInUnits(files[1..])
  }

  function Included(on: bool, r: Resource<Host>): seq<Resource<Host>> { if on then [r] else [] }

  predicate DropInClean(f: DropIn, h: Host) { ReadFile(h, f.path) == Content(f.content) }

  /** Sysctl comes first. */
  function First(k: Kernel, c: Config): seq<Resource<Host>> { Included(c.parts.sysctl, SysctlUnit(k, c.sysctl)) }

  /** What comes after the modules. */
  function Later(k: Kernel, c: Config): seq<Resource<Host>> {
    Included(c.parts.swap, SwapUnit(k)) + (Included(c.parts.cgroup, CgroupUnit()) + (MountUnits(k, c.mounts) + DropInUnits(c.dropIns)))
  }

  function Rest(k: Kernel, c: Config): seq<Resource<Host>> { Included(c.parts.kmod, KmodUnit(k, c.kmod)) + Later(k, c) }

  function Build(k: Kernel, c: Config): seq<Resource<Host>> { First(k, c) + Rest(k, c) }

  /** The host after one run in apply mode. */
  function ApplyPass(k: Kernel, c: Config, h: Host): Host { FinalState(Build(k, c), h, ModeApply) }

  // ---- assumptions about the kernel and the configuration

  /** Values keep their fields, modprobe lists what it loads, swapoff turns everything off, masking lists no unit, mount
      shows the mount. */
  ghost predicate Lawful(k: Kernel, c: Config) {
    && FieldPreserving(k)
    && ModprobeKeeps(k) && (forall m :: m in c.kmod.modules ==> Nameable(k, m))
    && SwapoffWorks(k) && MaskAddsNone(k)
    && (forall text, m :: m in c.mounts ==> Mounted(k.mount(text, MountArgs(m)), m.path, m.fstype))
    && (forall text, args, path, fstype :: Mounted(text, path, fstype) ==> Mounted(k.mount(text, args), path, fstype))
  }

  /** Distinct sysctl files, well-formed mounts, and rendered files that are neither each other nor fstab. */
  ghost predicate Sensible(c: Config) {
    && c.sysctl.DistinctPaths()
    && AllWellFormed(c.mounts)
    && c.sysctl.persistFile !in {FSTAB, BACKUP} && c.kmod.persistFile !in {FSTAB, BACKUP}
    && (c.sysctl.persistFile == c.kmod.persistFile ==> c.sysctl.persistFile == "")
    && (forall f :: f in c.dropIns ==> f.path !in {FSTAB, BACKUP, c.sysctl.persistFile, c.kmod.persistFile})
    && (forall f, g :: f in c.dropIns && g in c.dropIns && f.path == g.path ==> f.content == g.content)
  }

  // ---- members of the list

  lemma {:induction false} MountMember(k: Kernel, mounts: seq<MountSpec>, r: Resource<Host>)
    ensures r in MountUnits(k, mounts) <==> exists m :: m in mounts && r == MountUnit(k, m)
  {
    if mounts != [] {
      MountMember(k, mounts[1..], r);
      assert mounts == [mounts[0]] + mounts[1..];
    }
  }

  lemma {:induction false} DropInMember(files: seq<DropIn>, r: Resource<Host>)
    ensures r in DropInUnits(files) <==> exists f :: f in files && r == DropInUnit(f)
  {
    if files != [] {
      DropInMember(files[1..], r);
      assert files == [files[0]] + files[1..];
    }
  }

  /** One of the resources after the modules is swap's, the control groups', a mount's, or a drop-in's. */
  lemma LaterMember(k: Kernel, c: Config, r: Resource<Host>)
    ensures r in Later(k, c) <==>
      || (c.parts.swap && r == SwapUnit(k)) || (c.parts.cgroup && r == CgroupUnit())
      || (exists m :: m in c.mounts && r == MountUnit(k, m)) || (exists f :: f in c.dropIns && r == DropInUnit(f))
  {
    MountMember(k, c.mounts, r);
    DropInMember(c.dropIns, r);
  }

  lemma Members(k: Kernel, c: Config, r: Resource<Host>)
    ensures r in Rest(k, c) <==> (c.parts.kmod && r == KmodUnit(k, c.kmod)) || r in Later(k, c)
    ensures r in Build(k, c) <==> (c.parts.sysctl && r == SysctlUnit(k, c.sysctl)) || r in Rest(k, c)
  {}

  // ---- the resources report honestly

  lemma UnitsHonest(k: Kernel, c: Config)
    ensures Honest(SysctlUnit(k, c.sysctl)) && Honest(KmodUnit(k, c.kmod)) && Honest(SwapUnit(k)) && Honest(CgroupUnit())
    ensures forall m :: Honest(MountUnit(k, m))
    ensures forall f :: Honest(DropInUnit(f))
  {}

  /** Whatever the configuration, no Check of the engine's resources errs without failing or claims a change. */
  lemma BuildIsHonest(k: Kernel, c: Config)
    ensures AllHonest(Build(k, c)) && AllHonest(First(k, c)) && AllHonest(Rest(k, c))
  {
    UnitsHonest(k, c);
    forall r | r in Build(k, c) ensures Honest(r) {
      Members(k, c, r);
      LaterMember(k, c, r);
    }
  }

  // ---- filters

  function SelectMounts(mounts: seq<MountSpec>, disabled: seq<string>, skip: seq<string>, only: seq<string>): seq<MountSpec> {
    if mounts == [] then []
    else (if Selected(mounts[0].name, disabled, skip, only) then [mounts[0]] else []) + SelectMounts(mounts[1..], disabled, skip, only)
  }

  function SelectDropIns(files: seq<DropIn>, disabled: seq<string>, skip: seq<string>, only: seq<string>): seq<DropIn> {
    if files == [] then []
    else (if Selected(files[0].name, disabled, skip, only) then [files[0]] else []) + SelectDropIns(files[1..], disabled, skip, only)
  }

  /** The configuration of what the filters leave. */
  function Narrowed(c: Config, disabled: seq<string>, skip: seq<string>, only: seq<string>): Config {
    c.(parts := Parts(
         c.parts.sysctl && Selected("sysctl", disabled, skip, only), c.parts.kmod && Selected("kernel-modules", disabled, skip, only),
         c.parts.swap && Selected("swap", disabled, skip, only), c.parts.cgroup && Selected("cgroup-v2", disabled, skip, only)),
       mounts := SelectMounts(c.mounts, disabled, skip, only), dropIns := SelectDropIns(c.dropIns, disabled, skip, only))
  }

  lemma {:induction false} FilterMounts(k: Kernel, mounts: seq<MountSpec>, disabled: seq<string>, skip: seq<string>, only: seq<string>)
    ensures FilterSpec(MountUnits(k, mounts), disabled, skip, only) == MountUnits(k, SelectMounts(mounts, disabled, skip, only))
    ensures forall m :: m in SelectMounts(mounts, disabled, skip, only) ==> m in mounts
  {
    if mounts != [] {
      FilterMounts(k, mounts[1..], disabled, skip, only);
      assert MountUnits(k, mounts)[1..] == MountUnits(k, mounts[1..]);
      var rest := SelectMounts(mounts[1..], disabled, skip, only);
      assert ([mounts[0]] + rest)[1..] == rest && [] + rest == rest;
    }
  }

  lemma {:induction false} FilterDropIns(files: seq<DropIn>, disabled: seq<string>, skip: seq<string>, only: seq<string>)
    ensures FilterSpec(DropInUnits(files), disabled, skip, only) == DropInUnits(SelectDropIns(files, disabled, skip, only))
    ensures forall f :: f in SelectDropIns(files, disabled, skip, only) ==> f in files
  {
    if files != [] {
      FilterDropIns(files[1..], disabled, skip, only);
      assert DropInUnits(files)[1..] == DropInUnits(files[1..]);
      var rest := SelectDropIns(files[1..], disabled, skip, only);
      assert ([files[0]] + rest)[1..] == rest && [] + rest == rest;
    }
  }

  lemma FilterIncluded(on: bool, r: Resource<Host>, disabled: seq<string>, skip: seq<string>, only: seq<string>)
    ensures FilterSpec(Included(on, r), disabled, skip, only) == Included(on && Selected(r.name, disabled, skip, only), r)
  {}

  /** A filtered run is the run of the narrowed configuration, so whatever holds of every configuration's runs holds
      of every filtered one's. */
  lemma FilterIsNarrowing(k: Kernel, c: Config, disabled: seq<string>, skip: seq<string>, only: seq<string>)
    ensures FilterSpec(Build(k, c), disabled, skip, only) == Build(k, Narrowed(c, disabled, skip, only))
  {
    var one := Included(c.parts.sysctl, SysctlUnit(k, c.sysctl));
    var two := Included(c.parts.kmod, KmodUnit(k, c.kmod));
    var three := Included(c.parts.swap, SwapUnit(k));
    var four := Included(c.parts.cgroup, CgroupUnit());
    var five, six := MountUnits(k, c.mounts), DropInUnits(c.dropIns);
    FilterConcat(one, two + (three + (four + (five + six))), disabled, skip, only);
    FilterConcat(two, three + (four + (five + six)), disabled, skip, only);
    FilterConcat(three, four + (five + six), disabled, skip, only);
    FilterConcat(four, five + six, disabled, skip, only);
    FilterConcat(five, six, disabled, skip, only);
    FilterIncluded(c.parts.sysctl, SysctlUnit(k, c.sysctl), disabled, skip, only);
    FilterIncluded(c.parts.kmod, KmodUnit(k, c.kmod), disabled, skip, only);
    FilterIncluded(c.parts.swap, SwapUnit(k), disabled, skip, only);
    FilterIncluded(c.parts.cgroup, CgroupUnit(), disabled, skip, only);
    FilterMounts(k, c.mounts, disabled, skip, only);
    FilterDropIns(c.dropIns, disabled, skip, only);
  }

  lemma NarrowedIsSensible(k: Kernel, c: Config, disabled: seq<string>, skip: seq<string>, only: seq<string>)
    requires Sensible(c) && Lawful(k, c)
    ensures Sensible(Narrowed(c, disabled, skip, only)) && Lawful(k, Narrowed(c, disabled, skip, only))
  {
    FilterMounts(k, c.mounts, disabled, skip, only);
    FilterDropIns(c.dropIns, disabled, skip, only);
  }
}
