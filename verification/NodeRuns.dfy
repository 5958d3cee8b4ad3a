/** A profile built from facts and overrides, run on a host: the assumptions of the convergence theorems discharged. */
module NodeRuns {
  import opened Numbers
  import opened Text
  import opened ProcSys
  import opened Engine
  import opened HostState
  import opened Fstab
  import opened FstabHistory
  import opened Sysctl
  import opened KernelModules
  import opened SwapMount
  import opened HostUnits
  import opened Convergence
  import opened Profile
  import opened Machine
  import IrqAffinity
  import NicTuning
  import CpuGovernor
  import IoScheduler
  import F = Facts

  const DROP_IN := "99-node-configurator.conf"
  const SYSCTL_FILE := "/etc/sysctl.d/" + DROP_IN
  const MODULES_FILE := "/etc/modules-load.d/" + DROP_IN
  const LIMITS_FILE := "/etc/security/limits.d/" + DROP_IN

  function LimitLine(kind: string, what: string, value: string): string { "* " + kind + " " + what + " " + value }

  function LimitsConf(noFile: nat, nproc: nat): string {
    var n, p := Itoa(noFile), if nproc > 0 then Itoa(nproc) else "infinity";
    HEADER + "\n" + LimitLine("soft", "nofile", n) + "\n" + LimitLine("hard", "nofile", n) + "\n" + LimitLine("soft", "nproc", p) + "\n" + LimitLine("hard", "nproc", p) + "\n"
  }

  function SystemdLimit(noFile: nat): string { HEADER + "\n" + "[Service]" + "\n" + ("LimitNOFILE=" + Itoa(noFile)) + "\n" }

  function ServiceLimit(service: string, noFile: nat): DropIn {
    DropIn("systemd-limits-" + service, "/etc/systemd/system/" + service + ".service.d/" + DROP_IN, SystemdLimit(noFile))
  }

  /** The limits of login sessions, and of three services. */
  function LimitFiles(noFile: nat, nproc: nat): seq<DropIn> {
    if noFile > 0 then
      [DropIn("limits-conf", LIMITS_FILE, LimitsConf(noFile, nproc)),
       ServiceLimit("containerd", noFile), ServiceLimit("kubelet", noFile), ServiceLimit("cilium", noFile)]
    else []
  }

  function ConfigOf(d: Desired): Config {
    Config(SysctlResource("/", d.sysctls, SYSCTL_FILE), KernelModuleResource(d.modules, MODULES_FILE), d.mounts,
           LimitFiles(d.noFile, d.nproc), Parts(true, true, true, true))
  }

  function TailOf(d: Desired, s: F.Sizing, iface: string): Tail {
    Tail(if d.irq then Some(IrqAffinity.IRQAffinityResource(iface, s.vcpus)) else None,
         if d.ringBufferMax || d.rps || d.xps
           then Some(NicTuning.NICResource(iface, s.vcpus, d.ringBufferMax, d.rps, d.xps)) else None,
         if d.cpuGovernor != "" then Some(d.cpuGovernor) else None,
         if d.ioEnabled then Some(d.ioScheduler) else None)
  }

  /** `engine.Build` for a profile, filters included. */
  ghost function BuildFor(k: Kernel, e: Echoes, s: F.Sizing, ov: Overrides, conv: real -> int, iface: string,
                          disabled: seq<string>, skip: seq<string>, only: seq<string>): seq<Resource<System>> {
    var d := DesiredState(s, ov, conv);
    FilterSpec(All(k, e, ConfigOf(d), TailOf(d, s, iface)), disabled, skip, only)
  }

  // ---- every built-in key is proper

  predicate Component(s: string) { s != "" && Free(s, Only('.')) && Free(s, Only('/')) }

  /** Said of the characters: no slash, and every dot between two other characters that are not dots. */
  predicate Dotted(s: string) {
    && s != "" && Free(s, Only('/')) && s[0] != '.' && s[|s| - 1] != '.'
    && forall i :: 0 <= i < |s| - 1 ==> s[i] != '.' || s[i + 1] != '.'
  }

  /** The part of a key before its last component, the dot included. */
  predicate KeyPrefix(p: string) {
    && |p| >= 2 && Free(p, Only('/')) && p[0] != '.' && p[|p| - 1] == '.'
    && forall i :: 0 <= i < |p| - 1 ==> p[i] != '.' || p[i + 1] != '.'
  }

  lemma Dot(prefix: string, last: string)
    requires KeyPrefix(prefix) && Component(last)
    ensures Dotted(prefix + last)
  {
    var key := prefix + last;
    forall i | 0 <= i < |key| - 1 ensures key[i] != '.' || key[i + 1] != '.' {
      if i >= |prefix| { assert key[i] == last[i - |prefix|]; }
      if i == |prefix| - 1 { assert key[i + 1] == last[0] && !Only('.').Matches(last[0]); }
    }
    assert key[|key| - 1] == last[|last| - 1] && !Only('.').Matches(last[|last| - 1]);
  }

  lemma {:induction false} DottedIsProper(s: string)
    requires Dotted(s)
    ensures ProperKey(s)
  {
    PiecesNonEmpty(s, '.');
  }

  lemma {:induction false} PiecesNonEmpty(s: string, dot: char)
    requires s != "" && s[|s| - 1] != dot && forall i :: 0 <= i < |s| - 1 ==> s[i] != dot || s[i + 1] != dot
    ensures forall i :: 0 <= i < |Split(s, dot)| ==> i == 0 || Split(s, dot)[i] != ""
    ensures s[0] != dot ==> Split(s, dot)[0] != ""
  {
    assert Split([], dot) == [[]];
    if |s| == 1 {
      assert s[1..] == [];
      assert Split(s, dot) == [[s[0]] + []] + [];
    } else {
      var rest := Split(s[1..], dot);
      forall i | 0 <= i < |s[1..]| - 1 ensures s[1..][i] != dot || s[1..][i + 1] != dot {
        assert s[1..][i] == s[i + 1] && s[1..][i + 1] == s[i + 2];
      }
      PiecesNonEmpty(s[1..], dot);
      if s[0] == dot { assert s[1] != dot; }
    }
  }

  lemma VmKeys()
    ensures Dotted(VM + "max_map_count")
    ensures Dotted(VM + "swappiness")
    ensures Dotted(VM + "nr_hugepages")
  {
    Dot(VM, "max_map_count");
    Dot(VM, "swappiness");
    Dot(VM, "nr_hugepages");
  }

  lemma FsInotifyKeys()
    ensures Dotted(FS_INOTIFY + "max_user_watches")
    ensures Dotted(FS_INOTIFY + "max_user_instances")
  {
    Dot(FS_INOTIFY, "max_user_watches");
    Dot(FS_INOTIFY, "max_user_instances");
  }

  lemma FsKeys()
    ensures Dotted(FS + "nr_open")
    ensures Dotted(FS + "file-max")
  {
    Dot(FS, "nr_open");
    Dot(FS, "file-max");
  }

  lemma NetIpv4Keys()
    ensures Dotted(NET_IPV4 + "ip_forward")
    ensures Dotted(NET_IPV4 + "tcp_rmem")
    ensures Dotted(NET_IPV4 + "tcp_wmem")
  {
    Dot(NET_IPV4, "ip_forward");
    Dot(NET_IPV4, "tcp_rmem");
    Dot(NET_IPV4, "tcp_wmem");
  }

  lemma NetCoreKeys()
    ensures Dotted(NET_CORE + "bpf_jit_enable")
    ensures Dotted(NET_CORE + "bpf_jit_harden")
    ensures Dotted(NET_CORE + "bpf_jit_limit")
    ensures Dotted(NET_CORE + "somaxconn")
    ensures Dotted(NET_CORE + "netdev_max_backlog")
    ensures Dotted(NET_CORE + "rmem_max")
    ensures Dotted(NET_CORE + "wmem_max")
  {
    Dot(NET_CORE, "bpf_jit_enable");
    Dot(NET_CORE, "bpf_jit_harden");
    Dot(NET_CORE, "bpf_jit_limit");
    Dot(NET_CORE, "somaxconn");
    Dot(NET_CORE, "netdev_max_backlog");
    Dot(NET_CORE, "rmem_max");
    Dot(NET_CORE, "wmem_max");
  }

  lemma KernelKeys()
    ensures Dotted(KERNEL + "unprivileged_bpf_disabled")
    ensures Dotted(KERNEL + "panic")
    ensures Dotted(KERNEL + "panic_on_oops")
    ensures Dotted(KERNEL + "threads-max")
    ensures Dotted(KERNEL + "pid_max")
  {
    Dot(KERNEL, "unprivileged_bpf_disabled");
    Dot(KERNEL, "panic");
    Dot(KERNEL, "panic_on_oops");
    Dot(KERNEL, "threads-max");
    Dot(KERNEL, "pid_max");
  }

  lemma NeighKeys()
    ensures Dotted(NEIGH + "gc_thresh1")
    ensures Dotted(NEIGH + "gc_thresh2")
    ensures Dotted(NEIGH + "gc_thresh3")
  {
    Dot(NEIGH, "gc_thresh1");
    Dot(NEIGH, "gc_thresh2");
    Dot(NEIGH, "gc_thresh3");
  }

  lemma NetBridgeKeys()
    ensures Dotted(NET_BRIDGE + "bridge-nf-call-iptables")
    ensures Dotted(NET_BRIDGE + "bridge-nf-call-ip6tables")
  {
    Dot(NET_BRIDGE, "bridge-nf-call-iptables");
    Dot(NET_BRIDGE, "bridge-nf-call-ip6tables");
  }

  lemma BaseKeysDotted()
    ensures forall key :: key in BASE_SYSCTLS ==> Dotted(key)
  {
    VmKeys();
    FsKeys();
    FsInotifyKeys();
    NetIpv4Keys();
    NetCoreKeys();
    KernelKeys();
  }

  lemma ScaledKeyDotted(k: ScaledKey)
    ensures Dotted(k.Name())
  {
    FsKeys();
    NetCoreKeys();
    NetIpv4Keys();
    KernelKeys();
    NeighKeys();
  }

  lemma ScaledKeysDotted(s: F.Sizing, conv: real -> int)
    ensures forall key :: key in ScaledSysctls(s, conv) ==> Dotted(key)
  {
    forall key | key in ScaledSysctls(s, conv) ensures Dotted(key) {
      ScaledNames(s, conv, key);
      var k: ScaledKey :| key == k.Name();
      ScaledKeyDotted(k);
    }
  }

  /** When the operator's keys are proper, so is every key of the built profile. */
  lemma ProfileKeysProper(s: F.Sizing, ov: Overrides, conv: real -> int)
    requires forall key :: key in ov.sysctls ==> ProperKey(key)
    ensures forall key :: key in DesiredState(s, ov, conv).sysctls ==> ProperKey(key)
  {
    forall key | key in DesiredState(s, ov, conv).sysctls ensures ProperKey(key) {
      KeySource(s, ov, conv, key);
      if key !in ov.sysctls {
        BuiltInKeyDotted(s, conv, key);
        DottedIsProper(key);
      }
    }
  }

  lemma BuiltInKeyDotted(s: F.Sizing, conv: real -> int, key: string)
    requires key in BASE_SYSCTLS || key in ScaledSysctls(s, conv) || key in BRIDGE_SYSCTLS || key == HUGEPAGES
    ensures Dotted(key)
  {
    BaseKeysDotted();
    ScaledKeysDotted(s, conv);
    OtherKeysDotted();
    OneOf(BASE_SYSCTLS, ScaledSysctls(s, conv), BRIDGE_SYSCTLS, key);
  }

  lemma OtherKeysDotted()
    ensures Dotted(HUGEPAGES) && forall key :: key in BRIDGE_SYSCTLS ==> Dotted(key)
  {
    NetBridgeKeys();
    VmKeys();
  }

  lemma OneOf(a: map<string, string>, b: map<string, string>, c: map<string, string>, key: string)
    requires forall k :: k in a ==> Dotted(k)
    requires forall k :: k in b ==> Dotted(k)
    requires forall k :: k in c ==> Dotted(k)
    requires key in a || key in b || key in c || Dotted(key)
    ensures Dotted(key)
  {}

  lemma BpffsWellFormed()
    ensures WellFormed(BPFFS)
  {
    BpffsWords();
    var a, b := "rw,nosuid,nodev,", "noexec,relatime";
    assert Free(a, Only('\n')) && Free(b, Only('\n'));
  }

  lemma BpffsWords()
    ensures Word("bpffs") && Word("/sys/fs/bpf") && Word("bpf") && "bpf" != "swap" && "bpffs"[0] != '#'
  {
    assert forall i :: 0 <= i < 5 ==> !IsSpace("bpffs"[i]);
    assert forall i :: 0 <= i < 11 ==> !IsSpace("/sys/fs/bpf"[i]);
    assert forall i :: 0 <= i < 3 ==> !IsSpace("bpf"[i]);
  }

  lemma DropInsApart()
    ensures |SYSCTL_FILE| == 39 && |MODULES_FILE| == 45 && |LIMITS_FILE| == 48 && |FSTAB| == 10 && |BACKUP| == 33
  {
    assert |DROP_IN| == 25;
  }

  lemma LimitPaths(noFile: nat, nproc: nat)
    ensures noFile > 0 ==> |LimitFiles(noFile, nproc)| == 4
    ensures forall i, j :: 0 <= i < j < |LimitFiles(noFile, nproc)| ==> LimitFiles(noFile, nproc)[i].path != LimitFiles(noFile, nproc)[j].path
    ensures forall f :: f in LimitFiles(noFile, nproc) ==> f.path !in {FSTAB, BACKUP, SYSCTL_FILE, MODULES_FILE}
  {
    DropInsApart();
    ServicePath("containerd", noFile);
    ServicePath("kubelet", noFile);
    ServicePath("cilium", noFile);
    PathLengths(LimitFiles(noFile, nproc));
  }

  /** Paths of different lengths differ. */
  lemma PathLengths(files: seq<DropIn>)
    requires files == [] || (|files| == 4 && |files[0].path| == 48 && |files[1].path| == 66 && |files[2].path| == 63 && |files[3].path| == 62)
    ensures forall i, j :: 0 <= i < j < |files| ==> files[i].path != files[j].path
    ensures forall f :: f in files ==> |f.path| >= 48
  {}

  lemma ServicePath(service: string, noFile: nat)
    ensures |ServiceLimit(service, noFile).path| == 56 + |service|
  {
    assert |DROP_IN| == 25;
  }

  /** Files at different places never disagree about one. */
  lemma ApartAgree(files: seq<DropIn>)
    requires forall i, j :: 0 <= i < j < |files| ==> files[i].path != files[j].path
    ensures forall f, g :: f in files && g in files && f.path == g.path ==> f.content == g.content
  {
    forall f, g | f in files && g in files && f.path == g.path ensures f.content == g.content {
      var i :| 0 <= i < |files| && files[i] == f;
      var j :| 0 <= j < |files| && files[j] == g;
      assert i == j;
    }
  }

  /** A profile built from any facts, with proper override keys, meets what the convergence theorems ask of it. */
  lemma ProfileIsSensible(s: F.Sizing, ov: Overrides, conv: real -> int)
    requires forall key :: key in ov.sysctls ==> ProperKey(key)
    ensures Sensible(ConfigOf(DesiredState(s, ov, conv)))
  {
    ProfileKeysProper(s, ov, conv);
    ProfileMounts(s, ov, conv);
    ProperIsSensible(DesiredState(s, ov, conv));
  }

  lemma ProperIsSensible(d: Desired)
    requires d.mounts == [BPFFS] && forall key :: key in d.sysctls ==> ProperKey(key)
    ensures Sensible(ConfigOf(d))
  {
    ProperKeysDistinctPaths(ConfigOf(d).sysctl);
    BpffsWellFormed();
    DropInsApart();
    LimitPaths(d.noFile, d.nproc);
    ApartAgree(LimitFiles(d.noFile, d.nproc));
  }

  lemma ProfileMounts(s: F.Sizing, ov: Overrides, conv: real -> int)
    ensures DesiredState(s, ov, conv).mounts == [BPFFS]
    ensures !ov.cilium.legacyIPTables && ov.cilium.tunnelMode !in {"vxlan", "geneve"} ==> DesiredState(s, ov, conv).modules == []
  {}

  // ---- runs of a built profile

  /** Every module a profile may ask for. */
  const MODULES := ["vxlan", "geneve", "br_netfilter", "nf_conntrack", "iptable_nat", "iptable_filter"]

  /** The kernel is lawful for whatever a profile may ask for. */
  ghost predicate LawfulForProfiles(k: Kernel) {
    Lawful(k, Config(SysctlResource("/", map[], ""), KernelModuleResource(MODULES, ""), [BPFFS], [], Parts(true, true, true, true)))
  }

  lemma ProfileIsLawful(k: Kernel, s: F.Sizing, ov: Overrides, conv: real -> int)
    requires LawfulForProfiles(k)
    ensures Lawful(k, ConfigOf(DesiredState(s, ov, conv)))
  {
    ProfileMounts(s, ov, conv);
    ProfileModules(s, ov, conv);
  }

  lemma ProfileModules(s: F.Sizing, ov: Overrides, conv: real -> int)
    ensures forall m :: m in DesiredState(s, ov, conv).modules ==> m in MODULES
  {
    var tunnel := TunnelModules(ov.cilium.tunnelMode);
    assert forall m :: m in tunnel ==> m in MODULES;
    assert MODULES[2..] == ["br_netfilter", "nf_conntrack", "iptable_nat", "iptable_filter"];
  }

  /** What is asked of the kernel and of the node, whatever the profile; anything on the node may fail. */
  ghost predicate Usable(k: Kernel, e: Echoes, n: System, disabled: seq<string>, skip: seq<string>, only: seq<string>) {
    && LawfulForProfiles(k) && (Selected("swap", disabled, skip, only) ==> UnitsLeave(k, n.host))
    && IrqAffinity.EchoesNumbers(e.affinity) && NicTuning.EchoKeeps(e.mask) && CpuGovernor.EchoTrims(e.governor)
    && NicTuning.ValidNic(n.nic) && IoScheduler.ValidHost(n.block)
  }

  /** What is asked of the operator: proper keys, and a governor without white space around it. */
  ghost predicate Reasonable(ov: Overrides) {
    && (forall key :: key in ov.sysctls ==> ProperKey(key))
    && (ov.cpuGovernor.Some? ==> TrimSpace(ov.cpuGovernor.value) == ov.cpuGovernor.value)
  }

  lemma GovernorOf(s: F.Sizing, ov: Overrides, conv: real -> int)
    ensures DesiredState(s, ov, conv).cpuGovernor == Or(ov.cpuGovernor, "performance")
    ensures TrimSpace("performance") == "performance"
  {
    TrimTight("performance");
  }

  lemma ProfileIsReady(k: Kernel, e: Echoes, s: F.Sizing, ov: Overrides, conv: real -> int, iface: string, n: System,
                       disabled: seq<string>, skip: seq<string>, only: seq<string>)
    requires Reasonable(ov) && Usable(k, e, n, disabled, skip, only)
    ensures var d := DesiredState(s, ov, conv);
      Machine.Ready(k, e, Narrowed(ConfigOf(d), disabled, skip, only), NarrowedTail(TailOf(d, s, iface), disabled, skip, only), n)
  {
    ProfileIsSensible(s, ov, conv);
    ProfileIsLawful(k, s, ov, conv);
    GovernorOf(s, ov, conv);
    var d := DesiredState(s, ov, conv);
    TailIsSound(e, d, s, iface);
    ReadyFrom(k, e, ConfigOf(d), TailOf(d, s, iface), n, disabled, skip, only);
  }

  lemma TailIsSound(e: Echoes, d: Desired, s: F.Sizing, iface: string)
    requires IrqAffinity.EchoesNumbers(e.affinity) && NicTuning.EchoKeeps(e.mask) && CpuGovernor.EchoTrims(e.governor)
    requires TrimSpace(d.cpuGovernor) == d.cpuGovernor
    ensures Sound(e, TailOf(d, s, iface))
  {}

  lemma ReadyFrom(k: Kernel, e: Echoes, c: Config, t: Tail, n: System, disabled: seq<string>, skip: seq<string>, only: seq<string>)
    requires Lawful(k, c) && Sensible(c) && Sound(e, t)
    requires Selected("swap", disabled, skip, only) ==> UnitsLeave(k, n.host)
    requires NicTuning.ValidNic(n.nic) && IoScheduler.ValidHost(n.block)
    ensures Machine.Ready(k, e, Narrowed(c, disabled, skip, only), NarrowedTail(t, disabled, skip, only), n)
  {
    NarrowedIsSensible(k, c, disabled, skip, only);
    assert Leaving(k, Narrowed(c, disabled, skip, only))(n.host);
  }

  /** Any facts, any reasonable overrides, any filters, any usable node: after two applies that report no failure,
      everything the profile asks for is in place, and every further run changes nothing, reports nothing pending and
      exits 0. */
  lemma ProfileConverges(k: Kernel, e: Echoes, s: F.Sizing, ov: Overrides, conv: real -> int, iface: string, n: System,
                         disabled: seq<string>, skip: seq<string>, only: seq<string>, mode: Mode)
    requires Reasonable(ov) && Usable(k, e, n, disabled, skip, only)
    requires var rs := BuildFor(k, e, s, ov, conv, iface, disabled, skip, only);
      NoneFailed(Results(rs, n, ModeApply)) && NoneFailed(Results(rs, FinalState(rs, n, ModeApply), ModeApply))
    ensures var rs := BuildFor(k, e, s, ov, conv, iface, disabled, skip, only);
      var n2 := FinalState(rs, FinalState(rs, n, ModeApply), ModeApply);
      && FinalState(rs, n2, mode) == n2
      && AllQuiet(Results(rs, n2, mode)) && ExitCodeOf(Results(rs, n2, mode), mode) == 0
      && var d := DesiredState(s, ov, conv);
         NodeConverged(Narrowed(ConfigOf(d), disabled, skip, only), NarrowedTail(TailOf(d, s, iface), disabled, skip, only), n2)
  {
    var d := DesiredState(s, ov, conv);
    ProfileIsReady(k, e, s, ov, conv, iface, n, disabled, skip, only);
    FilteredConverges(k, e, ConfigOf(d), TailOf(d, s, iface), n, disabled, skip, only, mode);
  }

  lemma FilteredConverges(k: Kernel, e: Echoes, c: Config, t: Tail, n: System,
                          disabled: seq<string>, skip: seq<string>, only: seq<string>, mode: Mode)
    requires Machine.Ready(k, e, Narrowed(c, disabled, skip, only), NarrowedTail(t, disabled, skip, only), n)
    requires var rs := FilterSpec(All(k, e, c, t), disabled, skip, only);
      NoneFailed(Results(rs, n, ModeApply)) && NoneFailed(Results(rs, FinalState(rs, n, ModeApply), ModeApply))
    ensures var rs := FilterSpec(All(k, e, c, t), disabled, skip, only);
      var n2 := FinalState(rs, FinalState(rs, n, ModeApply), ModeApply);
      && FinalState(rs, n2, mode) == n2
      && AllQuiet(Results(rs, n2, mode)) && ExitCodeOf(Results(rs, n2, mode), mode) == 0
      && NodeConverged(Narrowed(c, disabled, skip, only), NarrowedTail(t, disabled, skip, only), n2)
  {
    FilteredIsNarrowed(k, e, c, t, disabled, skip, only);
    Machine.ThirdRunIsQuiet(k, e, Narrowed(c, disabled, skip, only), NarrowedTail(t, disabled, skip, only), n, mode);
  }

  /** A failure on the way leaves the rest converged: whatever fails, every resource of the filtered list but sysctl that
      is not reported as failed has nothing left to do. */
  lemma ProfileFailureDoesNotSpread(k: Kernel, e: Echoes, s: F.Sizing, ov: Overrides, conv: real -> int, iface: string, n: System,
                                    disabled: seq<string>, skip: seq<string>, only: seq<string>)
    requires Reasonable(ov) && Usable(k, e, n, disabled, skip, only)
    ensures var d := DesiredState(s, ov, conv);
      var c, t := Narrowed(ConfigOf(d), disabled, skip, only), NarrowedTail(TailOf(d, s, iface), disabled, skip, only);
      && BuildFor(k, e, s, ov, conv, iface, disabled, skip, only) == AllFirst(k, c) + AllRest(k, e, c, t)
      && UnfailedAreQuiet(AllFirst(k, c), AllRest(k, e, c, t), n)
  {
    var d := DesiredState(s, ov, conv);
    ProfileIsReady(k, e, s, ov, conv, iface, n, disabled, skip, only);
    FilteredIsNarrowed(k, e, ConfigOf(d), TailOf(d, s, iface), disabled, skip, only);
    Machine.FailureDoesNotSpread(k, e, Narrowed(ConfigOf(d), disabled, skip, only), NarrowedTail(TailOf(d, s, iface), disabled, skip, only), n);
  }

  /** Where nothing on the shared host can fail, the first apply without a failure is enough of a condition. */
  lemma HealthyProfileConverges(k: Kernel, e: Echoes, s: F.Sizing, ov: Overrides, conv: real -> int, iface: string, n: System,
                                disabled: seq<string>, skip: seq<string>, only: seq<string>, mode: Mode)
    requires Reasonable(ov) && Usable(k, e, n, disabled, skip, only) && Healthy(n.host)
    requires NoneFailed(Results(BuildFor(k, e, s, ov, conv, iface, disabled, skip, only), n, ModeApply))
    ensures var rs := BuildFor(k, e, s, ov, conv, iface, disabled, skip, only);
      var n2 := FinalState(rs, FinalState(rs, n, ModeApply), ModeApply);
      && FinalState(rs, n2, mode) == n2
      && AllQuiet(Results(rs, n2, mode)) && ExitCodeOf(Results(rs, n2, mode), mode) == 0
      && var d := DesiredState(s, ov, conv);
         NodeConverged(Narrowed(ConfigOf(d), disabled, skip, only), NarrowedTail(TailOf(d, s, iface), disabled, skip, only), n2)
  {
    var d := DesiredState(s, ov, conv);
    var c, t := ConfigOf(d), TailOf(d, s, iface);
    ProfileIsReady(k, e, s, ov, conv, iface, n, disabled, skip, only);
    HealthySecondFiltered(k, e, c, t, n, disabled, skip, only);
    FilteredConverges(k, e, c, t, n, disabled, skip, only, mode);
  }

  lemma HealthySecondFiltered(k: Kernel, e: Echoes, c: Config, t: Tail, n: System,
                              disabled: seq<string>, skip: seq<string>, only: seq<string>)
    requires Machine.Ready(k, e, Narrowed(c, disabled, skip, only), NarrowedTail(t, disabled, skip, only), n) && Healthy(n.host)
    requires NoneFailed(Results(FilterSpec(All(k, e, c, t), disabled, skip, only), n, ModeApply))
    ensures var rs := FilterSpec(All(k, e, c, t), disabled, skip, only);
      NoneFailed(Results(rs, FinalState(rs, n, ModeApply), ModeApply))
  {
    FilteredIsNarrowed(k, e, c, t, disabled, skip, only);
    HealthySecondRun(k, e, Narrowed(c, disabled, skip, only), NarrowedTail(t, disabled, skip, only), n);
  }

  /** Native routing without iptables rules configures no module, so the second apply already has nothing to do. */
  lemma NativeModeNeedsOnePass(k: Kernel, e: Echoes, s: F.Sizing, ov: Overrides, conv: real -> int, iface: string, n: System,
                               disabled: seq<string>, skip: seq<string>, only: seq<string>)
    requires !ov.cilium.legacyIPTables && ov.cilium.tunnelMode !in {"vxlan", "geneve"}
    requires Reasonable(ov) && Usable(k, e, n, disabled, skip, only)
    requires NoneFailed(Results(BuildFor(k, e, s, ov, conv, iface, disabled, skip, only), n, ModeApply))
    ensures var rs := BuildFor(k, e, s, ov, conv, iface, disabled, skip, only);
      AllQuiet(Results(rs, FinalState(rs, n, ModeApply), ModeApply))
  {
    var d := DesiredState(s, ov, conv);
    var c, t := ConfigOf(d), TailOf(d, s, iface);
    ProfileIsReady(k, e, s, ov, conv, iface, n, disabled, skip, only);
    ProfileMounts(s, ov, conv);
    FilteredIsNarrowed(k, e, c, t, disabled, skip, only);
    NoModulesOnePass(k, e, Narrowed(c, disabled, skip, only), NarrowedTail(t, disabled, skip, only), n);
  }

  lemma NoModulesOnePass(k: Kernel, e: Echoes, c: Config, t: Tail, n: System)
    requires Machine.Ready(k, e, c, t, n) && c.kmod.modules == [] && NoneFailed(Results(All(k, e, c, t), n, ModeApply))
    ensures AllQuiet(Results(All(k, e, c, t), Machine.Pass(k, e, c, t, n), ModeApply))
  {
    CleanExposesNothing(k, c, n.host);
    Machine.SecondRunQuietIff(k, e, c, t, n);
  }

  // ---- a kernel that meets the assumptions, and a host on which one pass is not enough

  function PlainKernel(exposes: string -> map<string, string>): Kernel {
    Kernel((path: string, value: string) => value,
           (text: string, m: string) => m + "\n" + text,
           exposes,
           (text: string, args: seq<string>) => Join(args, " ") + "\n" + text,
           (text: string) => "",
           (text: string) => text,
           (text: string, unit: string) => "")
  }

  lemma MountedOnTop(line: string, text: string, path: string, fstype: string)
    ensures Mounted(text, path, fstype) ==> Mounted(line + "\n" + text, path, fstype)
    ensures Free(line, Only('\n')) && MountLine(line, path, fstype) ==> Mounted(line + "\n" + text, path, fstype)
  {
    SplitOnConcat(line, '\n', text, Only('\n'));
    assert line + "\n" + text == line + ['\n'] + text;
    if Free(line, Only('\n')) { SplitOnFree(line, Only('\n')); }
  }

  lemma MountShows(m: MountSpec)
    requires WellFormed(m)
    ensures Free(Join(MountArgs(m), " "), Only('\n')) && MountLine(Join(MountArgs(m), " "), m.path, m.fstype)
  {
    var rest := m.path + " " + (m.fstype + " " + m.options);
    assert MountArgs(m)[1..] == [m.path, m.fstype, m.options];
    assert MountArgs(m)[1..][1..] == [m.fstype, m.options];
    assert MountArgs(m)[1..][1..][1..] == [m.options];
    assert Join(MountArgs(m)[1..][1..], " ") == m.fstype + " " + m.options;
    assert Join(MountArgs(m)[1..], " ") == rest;
    assert Join(MountArgs(m), " ") == m.device + " " + rest;
    FieldsWord(m.device);
    FieldsWord(m.path);
    FieldsWord(m.fstype);
    FieldsConcat(m.fstype, ' ', m.options);
    FieldsConcat(m.path, ' ', m.fstype + " " + m.options);
    FieldsConcat(m.device, ' ', rest);
    assert Fields(Join(MountArgs(m), " "))[..3] == [m.device, m.path, m.fstype];
  }

  /** The assumptions about the kernel can be met: this kernel is lawful for every such configuration. */
  lemma PlainKernelIsLawful(exposes: string -> map<string, string>, c: Config)
    requires forall m :: m in c.kmod.modules ==> Word(m)
    requires forall m :: m in c.mounts ==> WellFormed(m)
    ensures Lawful(PlainKernel(exposes), c)
  {
    var k := PlainKernel(exposes);
    forall text, m ensures Loaded(text) <= Loaded(k.modprobe(text, m)) { LoadedOnTop(m, text); }
    forall m | m in c.kmod.modules ensures Nameable(k, m) {
      forall text ensures m in Loaded(k.modprobe(text, m)) { LoadedOnTop(m, text); }
    }
    forall text ensures ActiveDevices(k.swapoff(text)) == [] { assert Lines("") == [""]; }
    assert MaskAddsNone(k) by { assert Lines("") == [""] && Units("") == []; }
    forall text, m | m in c.mounts ensures Mounted(k.mount(text, MountArgs(m)), m.path, m.fstype) {
      MountShows(m);
      MountedOnTop(Join(MountArgs(m), " "), text, m.path, m.fstype);
    }
    forall text, args, path, fstype | Mounted(text, path, fstype) ensures Mounted(k.mount(text, args), path, fstype) {
      MountedOnTop(Join(args, " "), text, path, fstype);
    }
  }

  // ---- the bridge sysctl and the module that brings it

  lemma {:induction false} ExposedOnly(k: Kernel, r: KernelModuleResource, want: seq<string>, loaded: set<string>, m: string, path: string)
    requires m in want && m !in loaded && path in k.exposes(m)
    requires forall x :: x in want && x != m ==> path !in k.exposes(x)
    ensures path in r.Exposed(k, want, loaded) && r.Exposed(k, want, loaded)[path] == k.exposes(m)[path]
    decreases |want|
  {
    if want[0] != m { ExposedOnly(k, r, want[1..], loaded, m, path); }
  }

  /** Only br_netfilter brings the bridge sysctl, and with another value than the wanted 1. */
  ghost predicate BringsBridge(k: Kernel) {
    var path := SysctlPath("/", BRIDGE_KEY);
    && path in k.exposes("br_netfilter") && Fields(k.exposes("br_netfilter")[path]) != ["1"]
    && forall m :: m in MODULES && m != "br_netfilter" ==> path !in k.exposes(m)
  }

  /** A wanted key that only one wanted, unloaded module brings, with other fields, is pending. */
  lemma BroughtIsPending(k: Kernel, c: Config, h: Host, key: string, m: string)
    requires c.parts.sysctl && c.parts.kmod && key in c.sysctl.settings && !c.sysctl.Exists(h, key)
    requires m in c.kmod.modules && m !in Loaded(h.procModules) && c.sysctl.PathOf(key) in k.exposes(m)
    requires forall x :: x in c.kmod.modules && x != m ==> c.sysctl.PathOf(key) !in k.exposes(x)
    requires Fields(k.exposes(m)[c.sysctl.PathOf(key)]) != Fields(c.sysctl.settings[key])
    ensures Pending(k, c, h, key)
  {
    Sorting.LexOrder();
    Sorting.SortMembers(Sorting.LexLe, c.kmod.modules);
    ExposedOnly(k, c.kmod, c.kmod.WantModules(), Loaded(h.procModules), m, c.sysctl.PathOf(key));
  }

  lemma BridgeIsPending(k: Kernel, s: F.Sizing, ov: Overrides, conv: real -> int, h: Host)
    requires ov.cilium.legacyIPTables && BRIDGE_KEY !in ov.sysctls && BringsBridge(k)
    requires "br_netfilter" !in Loaded(h.procModules) && SysctlPath("/", BRIDGE_KEY) !in h.sysctls
    ensures Pending(k, ConfigOf(DesiredState(s, ov, conv)), h, BRIDGE_KEY)
  {
    BridgeSurvives(s, ov, conv);
    ProfileModules(s, ov, conv);
    BridgeModule(s, ov, conv);
    WantedIsPending(k, DesiredState(s, ov, conv), h, BRIDGE_KEY, "br_netfilter", MODULES);
  }

  lemma WantedIsPending(k: Kernel, d: Desired, h: Host, key: string, bringer: string, all: seq<string>)
    requires key in d.sysctls && d.sysctls[key] == "1" && SysctlPath("/", key) !in h.sysctls
    requires bringer in d.modules && bringer !in Loaded(h.procModules) && forall m :: m in d.modules ==> m in all
    requires SysctlPath("/", key) in k.exposes(bringer) && Fields(k.exposes(bringer)[SysctlPath("/", key)]) != ["1"]
    requires forall m :: m in all && m != bringer ==> SysctlPath("/", key) !in k.exposes(m)
    ensures Pending(k, ConfigOf(d), h, key)
  {
    FieldsWord("1");
    BroughtIsPending(k, ConfigOf(d), h, key, bringer);
  }

  lemma BridgeModule(s: F.Sizing, ov: Overrides, conv: real -> int)
    requires ov.cilium.legacyIPTables
    ensures "br_netfilter" in DesiredState(s, ov, conv).modules
  {
    var rest := ["br_netfilter", "nf_conntrack", "iptable_nat", "iptable_filter"];
    assert rest[0] == "br_netfilter";
  }

  /** With iptables rules asked for, on every host that has neither the module nor its sysctl: one pass over the
      built profile leaves drift, two do not. */
  lemma BridgeNeedsTwoPasses(k: Kernel, s: F.Sizing, ov: Overrides, conv: real -> int, h: Host)
    requires Reasonable(ov) && ov.cilium.legacyIPTables && BRIDGE_KEY !in ov.sysctls
    requires Healthy(h) && LawfulForProfiles(k) && UnitsLeave(k, h) && BringsBridge(k)
    requires "br_netfilter" !in Loaded(h.procModules) && SysctlPath("/", BRIDGE_KEY) !in h.sysctls
    ensures var c := ConfigOf(DesiredState(s, ov, conv));
      !AllClean(k, c, ApplyPass(k, c, h)) && AllClean(k, c, ApplyPass(k, c, ApplyPass(k, c, h)))
  {
    var c := ConfigOf(DesiredState(s, ov, conv));
    ProfileIsSensible(s, ov, conv);
    ProfileIsLawful(k, s, ov, conv);
    BridgeIsPending(k, s, ov, conv, h);
    assert Leaving(k, c)(h);
    HealthyConverges(k, c, h);
  }

  /** The kernel that exposes the file as "0" with the module. */
  function BridgeKernel(): Kernel {
    PlainKernel((m: string) => if m == "br_netfilter" then map[SysctlPath("/", BRIDGE_KEY) := "0"] else map[])
  }

  function BareHost(): (h: Host)
    ensures Healthy(h) && h.procModules == "" && h.sysctls == map[]
  {
    Host(map[], map[], "", "", "", "", true, {}, {}, {}, {}, map[])
  }

  /** Such a kernel and such a host exist. */
  lemma BridgeCase()
    ensures LawfulForProfiles(BridgeKernel()) && BringsBridge(BridgeKernel()) && Healthy(BareHost()) && UnitsLeave(BridgeKernel(), BareHost())
    ensures "br_netfilter" !in Loaded(BareHost().procModules) && SysctlPath("/", BRIDGE_KEY) !in BareHost().sysctls
  {
    assert Loaded("") == {} by { assert Split("", '\n') == [""] && FirstFields([""]) == []; }
    assert Lines("") == [""] && Units("") == [] && ActiveDevices("") == [];
    FieldsWord("0");
    ModuleWords();
    BpffsWellFormed();
    var c := Config(SysctlResource("/", map[], ""), KernelModuleResource(MODULES, ""), [BPFFS], [], Parts(true, true, true, true));
    PlainKernelIsLawful((m: string) => if m == "br_netfilter" then map[SysctlPath("/", BRIDGE_KEY) := "0"] else map[], c);
  }

  lemma ModuleWords()
    ensures forall m :: m in MODULES ==> Word(m)
  {
    assert Word("vxlan") && Word("geneve") && Word("br_netfilter");
    assert Word("nf_conntrack") && Word("iptable_nat") && Word("iptable_filter");
  }
}
