/** What the engine's list for a profile is, by name, and what the limit files it renders say. */
module NodeList {
  import opened Numbers
  import opened Text
  import opened Engine
  import opened HostState
  import opened Fstab
  import opened KernelModules
  import opened HostUnits
  import opened Profile
  import opened Machine
  import opened NodeRuns
  import F = Facts

  function NamesOf<S>(rs: seq<Resource<S>>): seq<string> { if rs == [] then [] else [rs[0].name] + NamesOf(rs[1..]) }

  lemma {:induction false} NamesConcat<S>(a: seq<Resource<S>>, b: seq<Resource<S>>)
    ensures NamesOf(a + b) == NamesOf(a) + NamesOf(b)
  {
    if a == [] {
      assert a + b == b;
    } else {
      assert (a + b)[1..] == a[1..] + b;
      NamesConcat(a[1..], b);
    }
  }

  lemma {:induction false} NamesLifted<T, S>(l: Lens<T, S>, rs: seq<Resource<S>>)
    ensures NamesOf(LiftAll(l, rs)) == NamesOf(rs)
  {
    if rs != [] {
      NamesLifted(l, rs[1..]);
      assert LiftAll(l, rs)[1..] == LiftAll(l, rs[1..]);
    }
  }

  function If(on: bool, name: string): seq<string> { if on then [name] else [] }

  lemma HostNames(k: Kernel, c: Config)
    ensures NamesOf(HostUnits.Build(k, c)) == If(c.parts.sysctl, "sysctl") + (If(c.parts.kmod, "kernel-modules")
      + (If(c.parts.swap, "swap") + (If(c.parts.cgroup, "cgroup-v2") + (NamesOf(MountUnits(k, c.mounts)) + NamesOf(DropInUnits(c.dropIns))))))
  {
    NamesConcat(First(k, c), Rest(k, c));
    NamesConcat(Included(c.parts.kmod, KmodUnit(k, c.kmod)), Later(k, c));
    var others := MountUnits(k, c.mounts) + DropInUnits(c.dropIns);
    NamesConcat(Included(c.parts.swap, SwapUnit(k)), Included(c.parts.cgroup, CgroupUnit()) + others);
    NamesConcat(Included(c.parts.cgroup, CgroupUnit()), others);
    NamesConcat(MountUnits(k, c.mounts), DropInUnits(c.dropIns));
  }

  lemma TailUnitNames(e: Echoes, t: Tail)
    ensures NamesOf(IrqUnits(t, e)) == If(t.irq.Some?, "irq-affinity") && NamesOf(NicUnits(t, e)) == If(t.nic.Some?, "nic-tuning")
    ensures NamesOf(GovernorUnits(t, e)) == If(t.governor.Some?, "cpu-governor")
    ensures NamesOf(SchedulerUnits(t)) == If(t.scheduler.Some?, "io-scheduler")
  {
    if t.irq.Some? { OneName(IrqUnit(t.irq.value, e)); }
    if t.nic.Some? { OneName(NicUnit(t.nic.value, e)); }
    if t.governor.Some? { OneName(GovernorUnit(t.governor.value, e)); }
    if t.scheduler.Some? { OneName(SchedulerUnit(t.scheduler.value)); }
  }

  lemma TailNames(e: Echoes, t: Tail)
    ensures NamesOf(TailUnits(e, t)) == If(t.irq.Some?, "irq-affinity") + (If(t.nic.Some?, "nic-tuning")
      + (If(t.governor.Some?, "cpu-governor") + If(t.scheduler.Some?, "io-scheduler")))
  {
    var irq, nic := LiftAll(IrqPart(), IrqUnits(t, e)), LiftAll(NicPart(), NicUnits(t, e));
    var cpus, block := LiftAll(CpuPart(), GovernorUnits(t, e)), LiftAll(BlockPart(), SchedulerUnits(t));
    NamesConcat(irq, nic + (cpus + block));
    NamesConcat(nic, cpus + block);
    NamesConcat(cpus, block);
    NamesLifted(IrqPart(), IrqUnits(t, e));
    NamesLifted(NicPart(), NicUnits(t, e));
    NamesLifted(CpuPart(), GovernorUnits(t, e));
    NamesLifted(BlockPart(), SchedulerUnits(t));
    TailUnitNames(e, t);
  }

  lemma AllNames(k: Kernel, e: Echoes, c: Config, t: Tail)
    ensures NamesOf(All(k, e, c, t)) == NamesOf(HostUnits.Build(k, c)) + NamesOf(TailUnits(e, t))
  {
    AllIsHostThenTail(k, e, c, t);
    NamesConcat(LiftAll(HostPart(), HostUnits.Build(k, c)), TailUnits(e, t));
    NamesLifted(HostPart(), HostUnits.Build(k, c));
  }

  const LIMIT_NAMES := ["limits-conf", "systemd-limits-" + "containerd", "systemd-limits-" + "kubelet", "systemd-limits-" + "cilium"]

  lemma LimitNames(noFile: nat, nproc: nat)
    requires noFile > 0
    ensures NamesOf(DropInUnits(LimitFiles(noFile, nproc))) == LIMIT_NAMES
  {
    var files := LimitFiles(noFile, nproc);
    FourDropIns(files[0], files[1], files[2], files[3]);
    assert files == [files[0], files[1], files[2], files[3]];
    FourNames(DropInUnit(files[0]), DropInUnit(files[1]), DropInUnit(files[2]), DropInUnit(files[3]));
  }

  lemma FourDropIns(a: DropIn, b: DropIn, c: DropIn, d: DropIn)
    ensures DropInUnits([a, b, c, d]) == [DropInUnit(a), DropInUnit(b), DropInUnit(c), DropInUnit(d)]
  {
    assert [a, b, c, d][1..] == [b, c, d] && [b, c, d][1..] == [c, d] && [c, d][1..] == [d] && [d][1..] == [];
    assert DropInUnits([d]) == [DropInUnit(d)];
    assert DropInUnits([c, d]) == [DropInUnit(c), DropInUnit(d)];
    assert DropInUnits([b, c, d]) == [DropInUnit(b), DropInUnit(c), DropInUnit(d)];
  }

  lemma FourNames<S>(a: Resource<S>, b: Resource<S>, c: Resource<S>, d: Resource<S>)
    ensures NamesOf([a, b, c, d]) == [a.name, b.name, c.name, d.name]
  {
    assert [a, b, c, d] == [a] + ([b] + ([c] + [d]));
    NamesConcat([a], [b] + ([c] + [d]));
    NamesConcat([b], [c] + [d]);
    NamesConcat([c], [d]);
    OneName(a);
    OneName(b);
    OneName(c);
    OneName(d);
  }

  lemma OneName<S>(a: Resource<S>)
    ensures NamesOf([a]) == [a.name]
  {
    assert [a][1..] == [];
  }

  /** The resources of a profile, in order: IRQs, NIC, governor and scheduler as the operator and the instance have it. */
  lemma ProfileNames(k: Kernel, e: Echoes, s: F.Sizing, ov: Overrides, conv: real -> int, iface: string)
    ensures var d := DesiredState(s, ov, conv);
      NamesOf(All(k, e, ConfigOf(d), TailOf(d, s, iface))) ==
        ["sysctl", "kernel-modules", "swap", "cgroup-v2", "bpffs-mount"] + LIMIT_NAMES
        + If(if ov.irqAffinity.Some? then ov.irqAffinity.value else s.vcpus > 1, "irq-affinity")
        + If(!(ov.ringBufferMax == ov.rps == ov.xps == Some(false)), "nic-tuning")
        + If(ov.cpuGovernor != Some(""), "cpu-governor")
        + If(ov.ioScheduler != Some(""), "io-scheduler")
  {
    var d := DesiredState(s, ov, conv);
    var t := TailOf(d, s, iface);
    AllNames(k, e, ConfigOf(d), t);
    ProfileHostNames(k, s, ov, conv);
    TailNames(e, t);
    ProfileTail(s, ov, conv, iface);
    FiveAndLimits(LIMIT_NAMES, If(t.irq.Some?, "irq-affinity"), If(t.nic.Some?, "nic-tuning"), If(t.governor.Some?, "cpu-governor"),
                  If(t.scheduler.Some?, "io-scheduler"));
  }

  lemma ProfileHostNames(k: Kernel, s: F.Sizing, ov: Overrides, conv: real -> int)
    ensures NamesOf(HostUnits.Build(k, ConfigOf(DesiredState(s, ov, conv))))
      == ["sysctl"] + (["kernel-modules"] + (["swap"] + (["cgroup-v2"] + (["bpffs-mount"] + LIMIT_NAMES))))
  {
    var d := DesiredState(s, ov, conv);
    ProfileMounts(s, ov, conv);
    BuiltSettings(s, ov, conv);
    HostNames(k, ConfigOf(d));
    LimitNames(d.noFile, d.nproc);
    OneMountName(k);
  }

  lemma ProfileTail(s: F.Sizing, ov: Overrides, conv: real -> int, iface: string)
    ensures var t := TailOf(DesiredState(s, ov, conv), s, iface);
      && (t.irq.Some? <==> if ov.irqAffinity.Some? then ov.irqAffinity.value else s.vcpus > 1)
      && (t.nic.Some? <==> !(ov.ringBufferMax == ov.rps == ov.xps == Some(false)))
      && (t.governor.Some? <==> ov.cpuGovernor != Some("")) && (t.scheduler.Some? <==> ov.ioScheduler != Some(""))
      && (t.irq.Some? ==> t.irq.value.iface == iface && t.irq.value.numCPUs == s.vcpus)
      && (t.nic.Some? ==>
            && t.nic.value.iface == iface && t.nic.value.numCPUs == s.vcpus
            && (t.nic.value.ringBufferMax <==> ov.ringBufferMax != Some(false))
            && (t.nic.value.rps <==> ov.rps != Some(false)) && (t.nic.value.xps <==> ov.xps != Some(false)))
      && (t.governor.Some? ==> t.governor.value == if ov.cpuGovernor.Some? then ov.cpuGovernor.value else "performance")
      && (t.scheduler.Some? ==> t.scheduler.value == if ov.ioScheduler.Some? then ov.ioScheduler.value else "none")
  {
    BuiltSettings(s, ov, conv);
  }

  lemma OneMountName(k: Kernel)
    ensures NamesOf(MountUnits(k, [BPFFS])) == ["bpffs-mount"]
  {
    assert [BPFFS][1..] == [];
    assert MountUnits(k, [BPFFS]) == [MountUnit(k, BPFFS)] + [] == [MountUnit(k, BPFFS)];
    OneName(MountUnit(k, BPFFS));
  }

  lemma FiveAndLimits(limits: seq<string>, a: seq<string>, b: seq<string>, c: seq<string>, d: seq<string>)
    ensures ["sysctl"] + (["kernel-modules"] + (["swap"] + (["cgroup-v2"] + (["bpffs-mount"] + limits)))) + (a + (b + (c + d)))
      == ["sysctl", "kernel-modules", "swap", "cgroup-v2", "bpffs-mount"] + limits + a + b + c + d
  {}

  function NProc(nproc: nat): string { if nproc > 0 then Itoa(nproc) else "infinity" }

  /** What the limit files say, line by line and field by field, below the header. */
  lemma LimitTexts(noFile: nat, nproc: nat)
    ensures var n, p := Itoa(noFile), NProc(nproc);
      var lines := Split(LimitsConf(noFile, nproc), '\n');
      && |lines| == 6 && lines[0] == HEADER && lines[5] == ""
      && Fields(lines[1]) == ["*", "soft", "nofile", n] && Fields(lines[2]) == ["*", "hard", "nofile", n]
      && Fields(lines[3]) == ["*", "soft", "nproc", p] && Fields(lines[4]) == ["*", "hard", "nproc", p]
    ensures Split(SystemdLimit(noFile), '\n') == [HEADER, "[Service]", "LimitNOFILE=" + Itoa(noFile), ""]
  {
    LoginLimits(noFile, nproc);
    ServiceText(noFile);
  }

  lemma LoginLimits(noFile: nat, nproc: nat)
    ensures var n, p := Itoa(noFile), NProc(nproc);
      var lines := Split(LimitsConf(noFile, nproc), '\n');
      && |lines| == 6 && lines[0] == HEADER && lines[5] == ""
      && Fields(lines[1]) == ["*", "soft", "nofile", n] && Fields(lines[2]) == ["*", "hard", "nofile", n]
      && Fields(lines[3]) == ["*", "soft", "nproc", p] && Fields(lines[4]) == ["*", "hard", "nproc", p]
  {
    var n, p := Itoa(noFile), NProc(nproc);
    ItoaIsWord(noFile);
    if nproc > 0 { ItoaIsWord(nproc); } else { assert Word("infinity"); }
    LimitFields("soft", "nofile", n);
    LimitFields("hard", "nofile", n);
    LimitFields("soft", "nproc", p);
    LimitFields("hard", "nproc", p);
    HeaderOneLine();
    SixLines(HEADER, LimitLine("soft", "nofile", n), LimitLine("hard", "nofile", n), LimitLine("soft", "nproc", p), LimitLine("hard", "nproc", p), "");
    LimitsText(noFile, nproc);
  }

  lemma LimitsText(noFile: nat, nproc: nat)
    ensures var n, p := Itoa(noFile), NProc(nproc);
      LimitsConf(noFile, nproc) == HEADER + "\n" + LimitLine("soft", "nofile", n) + "\n" + LimitLine("hard", "nofile", n) + "\n"
        + LimitLine("soft", "nproc", p) + "\n" + LimitLine("hard", "nproc", p) + "\n" + ""
  {
    EndsBlank(HEADER + "\n" + LimitLine("soft", "nofile", Itoa(noFile)) + "\n" + LimitLine("hard", "nofile", Itoa(noFile)) + "\n"
      + LimitLine("soft", "nproc", NProc(nproc)) + "\n" + LimitLine("hard", "nproc", NProc(nproc)) + "\n");
  }

  lemma EndsBlank(s: string)
    ensures s + "" == s
  {}

  lemma LimitFields(kind: string, what: string, value: string)
    requires Word(kind) && Word(what) && Word(value)
    ensures Fields(LimitLine(kind, what, value)) == ["*", kind, what, value] && Free(LimitLine(kind, what, value), Only('\n'))
  {
    var ws := ["*", kind, what, value];
    assert Word("*");
    FieldsWord("*");
    FieldsWord(kind);
    FieldsWord(what);
    FieldsWord(value);
    var tail := what + " " + value;
    FieldsConcat(what, ' ', value);
    FieldsConcat(kind, ' ', tail);
    FieldsConcat("*", ' ', kind + " " + tail);
    assert LimitLine(kind, what, value) == "*" + [' '] + (kind + " " + tail);
    FreeConcat(what, " ", Only('\n'));
    FreeConcat(what + " ", value, Only('\n'));
    FreeConcat(kind, " ", Only('\n'));
    FreeConcat(kind + " ", tail, Only('\n'));
    FreeConcat("* ", kind + " " + tail, Only('\n'));
    assert LimitLine(kind, what, value) == "* " + (kind + " " + tail);
  }

  /** A line added at the end comes apart again. */
  lemma AddLine(text: string, line: string)
    requires Free(line, Only('\n'))
    ensures Split(text + "\n" + line, '\n') == Split(text, '\n') + [line]
  {
    SplitOnFree(line, Only('\n'));
    SplitOnConcat(text, '\n', line, Only('\n'));
    assert text + "\n" + line == text + ['\n'] + line;
  }

  lemma SixLines(a: string, b: string, c: string, d: string, e: string, f: string)
    requires Free(a, Only('\n')) && Free(b, Only('\n')) && Free(c, Only('\n'))
    requires Free(d, Only('\n')) && Free(e, Only('\n')) && Free(f, Only('\n'))
    ensures Split(a + "\n" + b + "\n" + c + "\n" + d + "\n" + e + "\n" + f, '\n') == [a, b, c, d, e, f]
  {
    SplitOnFree(a, Only('\n'));
    AddLine(a, b);
    AddLine(a + "\n" + b, c);
    AddLine(a + "\n" + b + "\n" + c, d);
    AddLine(a + "\n" + b + "\n" + c + "\n" + d, e);
    AddLine(a + "\n" + b + "\n" + c + "\n" + d + "\n" + e, f);
  }

  lemma FourLines(a: string, b: string, c: string, d: string)
    requires Free(a, Only('\n')) && Free(b, Only('\n')) && Free(c, Only('\n')) && Free(d, Only('\n'))
    ensures Split(a + "\n" + b + "\n" + c + "\n" + d, '\n') == [a, b, c, d]
  {
    SplitOnFree(a, Only('\n'));
    AddLine(a, b);
    AddLine(a + "\n" + b, c);
    AddLine(a + "\n" + b + "\n" + c, d);
  }

  lemma ServiceText(noFile: nat)
    ensures Split(SystemdLimit(noFile), '\n') == [HEADER, "[Service]", "LimitNOFILE=" + Itoa(noFile), ""]
  {
    var limit := "LimitNOFILE=" + Itoa(noFile);
    HeaderOneLine();
    ItoaIsWord(noFile);
    FreeConcat("LimitNOFILE=", Itoa(noFile), Only('\n'));
    FourLines(HEADER, "[Service]", limit, "");
    EndsBlank(HEADER + "\n" + "[Service]" + "\n" + limit + "\n");
  }

  /** Where a profile's settings are kept. */
  lemma ConfigPlaces(d: Desired)
    ensures var c := ConfigOf(d);
      && c.sysctl.root == "/" && c.sysctl.settings == d.sysctls && c.kmod.modules == d.modules && c.mounts == d.mounts
      && c.sysctl.persistFile == "/etc/sysctl.d/" + "99-node-configurator.conf"
      && c.kmod.persistFile == "/etc/modules-load.d/" + "99-node-configurator.conf"
      && (d.noFile > 0 ==>
            && |c.dropIns| == 4
            && c.dropIns[0].path == "/etc/security/limits.d/" + "99-node-configurator.conf"
            && c.dropIns[1].path == "/etc/systemd/system/" + "containerd" + ".service.d/" + "99-node-configurator.conf"
            && c.dropIns[2].path == "/etc/systemd/system/" + "kubelet" + ".service.d/" + "99-node-configurator.conf"
            && c.dropIns[3].path == "/etc/systemd/system/" + "cilium" + ".service.d/" + "99-node-configurator.conf"
            && c.dropIns[0].content == LimitsConf(d.noFile, d.nproc)
            && forall i :: 1 <= i < 4 ==> c.dropIns[i].content == SystemdLimit(d.noFile))
  {}
}
