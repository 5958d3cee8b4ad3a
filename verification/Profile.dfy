/** The desired state of a node: baseline, scaling with the instance, Cilium prerequisites, operator overrides. */
module Profile {
  import opened Numbers
  import opened Text
  import opened Fstab
  import F = Facts

  // ---- scaling

  function Clamp(v: int, min: int, max: int): (r: int)
    requires min <= max
    ensures min <= v <= max ==> r == v
    ensures v < min ==> r == min
    ensures v > max ==> r == max
  {
    if v < min then min else if v > max then max else v
  }

  function Max(a: int, b: int): int { if a < b then b else a }

  /** Truncation toward zero. */
  function Trunc(x: real): int { if x >= 0.0 then x.Floor else -((-x).Floor) }

  /** A conversion of numbers to int64 that truncates what fits; what does not fit becomes some int64. */
  ghost predicate ConvertsInt64(conv: real -> int) {
    forall x: real :: IsInt64(conv(x)) && (IsInt64(Trunc(x)) ==> conv(x) == Trunc(x))
  }

  function MemMiB(s: F.Sizing): int { if s.memMiB <= 0 then 1024 else s.memMiB }

  function VCPUs(s: F.Sizing): int { if s.vcpus <= 0 then 1 else s.vcpus }

  function FileMax(s: F.Sizing, conv: real -> int): int {
    Clamp(conv(MemMiB(s) as real / 1024.0 * 131072.0), 1_048_576, 12_582_912)
  }

  function Somaxconn(s: F.Sizing): int { Clamp(Wrap64(VCPUs(s) * 2048), 4096, 65535) }

  function ThreadsMax(s: F.Sizing): int { Clamp(Wrap64(VCPUs(s) * 4096), 131072, 4_194_304) }

  function Backlog(s: F.Sizing, conv: real -> int): int { Clamp(conv(s.bandwidthGbps * 2000.0), 4096, 250_000) }

  function RmemMax(s: F.Sizing, conv: real -> int): int {
    Clamp(Wrap64(Wrap64(conv(s.bandwidthGbps) * 2) * 1_048_576), 4_194_304, 134_217_728)
  }

  function BpfJitLimit(s: F.Sizing): int { Clamp(Wrap64(VCPUs(s) * 8_388_608), 268_435_456, 1_073_741_824) }

  function Positive(n: int): int { if n <= 0 then 1 else n }

  function MaxNeighborEntries(s: F.Sizing): int { Wrap64(Positive(s.maxENIs) * Positive(s.ipv4PerENI)) }

  function Thresh3(s: F.Sizing): int { Clamp(Wrap64(MaxNeighborEntries(s) * 16), 1024, 131_072) }

  function Thresh2(s: F.Sizing): int { Max(Thresh3(s) / 2, 512) }

  function Thresh1(s: F.Sizing): int { Max(Thresh3(s) / 8, 128) }

  const VM := "vm."
  const FS := "fs."
  const FS_INOTIFY := "fs.inotify."
  const KERNEL := "kernel."
  const NET_CORE := "net.core."
  const NET_IPV4 := "net.ipv4."
  const NET_BRIDGE := "net.bridge."
  const NEIGH := "net.ipv4.neigh.default."

  const HUGEPAGES := VM + "nr_hugepages"

  /** The sysctls that scale with the instance, in the order they are assigned. */
  datatype ScaledKey =
    | FileMaxKey | SomaxconnKey | ThreadsMaxKey | PidMaxKey | BacklogKey | RmemMaxKey | WmemMaxKey | TcpRmemKey | TcpWmemKey
    | BpfJitLimitKey | Thresh1Key | Thresh2Key | Thresh3Key
  {
    function Name(): string {
      match this
      case FileMaxKey => FS + "file-max"
      case SomaxconnKey => NET_CORE + "somaxconn"
      case ThreadsMaxKey => KERNEL + "threads-max"
      case PidMaxKey => KERNEL + "pid_max"
      case BacklogKey => NET_CORE + "netdev_max_backlog"
      case RmemMaxKey => NET_CORE + "rmem_max"
      case WmemMaxKey => NET_CORE + "wmem_max"
      case TcpRmemKey => NET_IPV4 + "tcp_rmem"
      case TcpWmemKey => NET_IPV4 + "tcp_wmem"
      case BpfJitLimitKey => NET_CORE + "bpf_jit_limit"
      case Thresh1Key => NEIGH + "gc_thresh1"
      case Thresh2Key => NEIGH + "gc_thresh2"
      case Thresh3Key => NEIGH + "gc_thresh3"
    }

    function Value(s: F.Sizing, conv: real -> int): int {
      match this
      case FileMaxKey => FileMax(s, conv)
      case SomaxconnKey => Somaxconn(s)
      case ThreadsMaxKey | PidMaxKey => ThreadsMax(s)
      case BacklogKey => Backlog(s, conv)
      case RmemMaxKey | WmemMaxKey | TcpRmemKey | TcpWmemKey => RmemMax(s, conv)
      case BpfJitLimitKey => BpfJitLimit(s)
      case Thresh1Key => Thresh1(s)
      case Thresh2Key => Thresh2(s)
      case Thresh3Key => Thresh3(s)
    }

    /** The fields written in front of the value: the smallest and the default socket buffer. */
    function Lead(): seq<string> {
      match this
      case TcpRmemKey => ["4096", "131072"]
      case TcpWmemKey => ["4096", "65536"]
      case _ => []
    }

    /** The documented range of the value. */
    function Range(): (int, int) {
      match this
      case FileMaxKey => (1_048_576, 12_582_912)
      case SomaxconnKey => (4096, 65535)
      case ThreadsMaxKey | PidMaxKey => (131_072, 4_194_304)
      case BacklogKey => (4096, 250_000)
      case RmemMaxKey | WmemMaxKey | TcpRmemKey | TcpWmemKey => (4_194_304, 134_217_728)
      case BpfJitLimitKey => (268_435_456, 1_073_741_824)
      case Thresh1Key => (128, 16_384)
      case Thresh2Key => (512, 65_536)
      case Thresh3Key => (1024, 131_072)
    }
  }

  /** What distinguishes a scaled key: its length, and some characters where lengths agree. */
  function Fingerprint(name: string): (int, char, char, char) {
    if |name| < 14 then (|name|, ' ', ' ', ' ') else (|name|, name[9], name[13], name[|name| - 1])
  }

  lemma Fingerprints(k: ScaledKey)
    ensures Fingerprint(k.Name()) ==
      match k
      case FileMaxKey => (11, ' ', ' ', ' ')
      case SomaxconnKey => (18, 's', 'x', 'n')
      case ThreadsMaxKey => (18, 'r', 's', 'x')
      case PidMaxKey => (14, 'd', 'x', 'x')
      case BacklogKey => (27, 'n', 'e', 'g')
      case RmemMaxKey => (17, 'r', '_', 'x')
      case WmemMaxKey => (17, 'w', '_', 'x')
      case TcpRmemKey => (17, 't', 'r', 'm')
      case TcpWmemKey => (17, 't', 'w', 'm')
      case BpfJitLimitKey => (22, 'b', 'j', 't')
      case Thresh1Key => (33, 'n', 'h', '1')
      case Thresh2Key => (33, 'n', 'h', '2')
      case Thresh3Key => (33, 'n', 'h', '3')
  {}

  lemma NamesApart(a: ScaledKey, b: ScaledKey)
    requires a.Name() == b.Name()
    ensures a == b
  {
    Fingerprints(a);
    Fingerprints(b);
  }

  const PROCESS_KEYS := {FileMaxKey, SomaxconnKey, ThreadsMaxKey, PidMaxKey}
  const BUFFER_KEYS := {BacklogKey, RmemMaxKey, WmemMaxKey}
  const TCP_KEYS := {TcpRmemKey, TcpWmemKey}
  const TABLE_KEYS := {BpfJitLimitKey, Thresh1Key, Thresh2Key, Thresh3Key}
  const ALL_KEYS := PROCESS_KEYS + BUFFER_KEYS + TCP_KEYS + TABLE_KEYS

  ghost predicate Injective<K(!new)>(name: K -> string) { forall a: K, b: K :: name(a) == name(b) ==> a == b }

  ghost function Table<K(!new)>(keys: set<K>, name: K -> string, text: K -> string): map<string, string>
    requires Injective(name)
  {
    map k | k in keys :: name(k) := text(k)
  }

  lemma TableGrows<K(!new)>(base: map<string, string>, keys: set<K>, name: K -> string, text: K -> string, k: K)
    requires Injective(name)
    ensures base + Table(keys + {k}, name, text) == (base + Table(keys, name, text))[name(k) := text(k)]
  {
    assert Table(keys + {k}, name, text) == Table(keys, name, text)[name(k) := text(k)];
  }

  lemma TableLookup<K(!new)>(keys: set<K>, name: K -> string, text: K -> string)
    requires Injective(name)
    ensures forall k :: k in keys ==> name(k) in Table(keys, name, text) && Table(keys, name, text)[name(k)] == text(k)
    ensures forall key :: key in Table(keys, name, text) ==> exists k :: k in keys && key == name(k)
  {}

  function KeyName(): ScaledKey -> string { (k: ScaledKey) => k.Name() }

  function KeyValue(s: F.Sizing, conv: real -> int): ScaledKey -> int { (k: ScaledKey) => k.Value(s, conv) }

  /** What is written for a key, given the values. */
  function KeyText(value: ScaledKey -> int): ScaledKey -> string {
    (k: ScaledKey) => Join(k.Lead() + [Itoa(value(k))], " ")
  }

  lemma NamesInjective()
    ensures Injective(KeyName())
  {
    forall a: ScaledKey, b: ScaledKey | KeyName()(a) == KeyName()(b) ensures a == b { NamesApart(a, b); }
  }

  /** The given scaled keys, each with its fields. */
  ghost function Scaled(keys: set<ScaledKey>, value: ScaledKey -> int): map<string, string> {
    NamesInjective();
    Table(keys, KeyName(), KeyText(value))
  }

  ghost function ScaledSysctls(s: F.Sizing, conv: real -> int): map<string, string> { Scaled(ALL_KEYS, KeyValue(s, conv)) }

  const BASE_SYSCTLS: map<string, string> :=
    map[
      VM + "max_map_count" := "262144",
      VM + "swappiness" := "0",
      FS_INOTIFY + "max_user_watches" := "1048576",
      FS_INOTIFY + "max_user_instances" := "8192",
      FS + "nr_open" := "1048576",
      NET_IPV4 + "ip_forward" := "1",
      NET_CORE + "bpf_jit_enable" := "1",
      NET_CORE + "bpf_jit_harden" := "0",
      KERNEL + "unprivileged_bpf_disabled" := "1",
      KERNEL + "panic" := "10",
      KERNEL + "panic_on_oops" := "1"
    ]

  // ---- the profile and its steps

  datatype CiliumOptions = CiliumOptions(tunnelMode: string, legacyIPTables: bool)

  /** What the operator set; None, 0 and the empty map keep what is computed. */
  datatype Overrides = Overrides(
    sysctls: map<string, string>, noFileLimit: nat, cpuGovernor: Option<string>, hugePages2M: int, cilium: CiliumOptions,
    irqAffinity: Option<bool>, ringBufferMax: Option<bool>, rps: Option<bool>, xps: Option<bool>, ioScheduler: Option<string>)

  datatype Desired = Desired(
    sysctls: map<string, string>, modules: seq<string>, noFile: nat, nproc: nat, mounts: seq<MountSpec>, hugePages: Option<int>,
    irq: bool, ringBufferMax: bool, rps: bool, xps: bool, cpuGovernor: string, ioEnabled: bool, ioScheduler: string, swapOff: bool)

  const BPFFS := MountSpec("bpffs-mount", "bpffs", "/sys/fs/bpf", "bpf", "rw,nosuid,nodev," + "noexec,relatime", true)

  const BRIDGE_KEY := NET_BRIDGE + "bridge-nf-call-iptables"

  const BRIDGE_SYSCTLS: map<string, string> := map[BRIDGE_KEY := "1", NET_BRIDGE + "bridge-nf-call-ip6tables" := "1"]

  function Base(s: F.Sizing): Desired {
    Desired(BASE_SYSCTLS, [], 1048576, 0, [], None, s.vcpus > 1, true, true, true, "performance", true, "none", true)
  }

  function TunnelModules(mode: string): seq<string> {
    if mode == "vxlan" then ["vxlan"] else if mode == "geneve" then ["geneve"] else []
  }

  function BridgePart(o: CiliumOptions): map<string, string> { if o.legacyIPTables then BRIDGE_SYSCTLS else map[] }

  function WithCilium(d: Desired, o: CiliumOptions): Desired {
    d.(mounts := d.mounts + [BPFFS],
       modules := d.modules + TunnelModules(o.tunnelMode)
                  + (if o.legacyIPTables then ["br_netfilter", "nf_conntrack", "iptable_nat", "iptable_filter"] else []),
       sysctls := d.sysctls + BridgePart(o))
  }

  function Or<T>(o: Option<T>, computed: T): T { if o.Some? then o.value else computed }

  function HugePageSysctls(n: int): map<string, string> { if n > 0 then map[HUGEPAGES := Itoa(n)] else map[] }

  function WithOverrides(d: Desired, ov: Overrides): Desired {
    d.(sysctls := d.sysctls + ov.sysctls + HugePageSysctls(ov.hugePages2M),
       noFile := if ov.noFileLimit > 0 then ov.noFileLimit else d.noFile,
       cpuGovernor := Or(ov.cpuGovernor, d.cpuGovernor),
       hugePages := if ov.hugePages2M > 0 then Some(ov.hugePages2M) else d.hugePages,
       irq := Or(ov.irqAffinity, d.irq),
       ringBufferMax := Or(ov.ringBufferMax, d.ringBufferMax), rps := Or(ov.rps, d.rps), xps := Or(ov.xps, d.xps),
       ioScheduler := Or(ov.ioScheduler, d.ioScheduler),
       ioEnabled := if ov.ioScheduler.Some? then ov.ioScheduler.value != "" else d.ioEnabled)
  }

  /** `Build`, as a function: each step on top of the ones before. */
  ghost function DesiredState(s: F.Sizing, ov: Overrides, conv: real -> int): Desired {
    var b := Base(s);
    WithOverrides(WithCilium(b.(sysctls := b.sysctls + ScaledSysctls(s, conv)), ov.cilium), ov)
  }

  class NodeProfile {
    var sysctls: map<string, string>
    var modules: seq<string>
    var noFile: nat
    var nproc: nat
    var mounts: seq<MountSpec>
    var hugePages: Option<int>
    var irq: bool
    var ringBufferMax: bool
    var rps: bool
    var xps: bool
    var cpuGovernor: string
    var ioEnabled: bool
    var ioScheduler: string
    var swapOff: bool

    function Value(): Desired
      reads this
    {
      Desired(sysctls, modules, noFile, nproc, mounts, hugePages, irq, ringBufferMax, rps, xps, cpuGovernor, ioEnabled,
              ioScheduler, swapOff)
    }

    constructor (s: F.Sizing)
      ensures Value() == Base(s)
    {
      sysctls, modules, noFile, nproc, mounts, hugePages := BASE_SYSCTLS, [], 1048576, 0, [], None;
      irq, ringBufferMax, rps, xps := s.vcpus > 1, true, true, true;
      cpuGovernor, ioEnabled, ioScheduler, swapOff := "performance", true, "none", true;
    }

    /** One more scaled key, on top of `base` and the keys already done. */
    method Assign(k: ScaledKey, text: string, ghost base: map<string, string>, ghost done: set<ScaledKey>,
                  ghost value: ScaledKey -> int)
      requires sysctls == base + Scaled(done, value) && text == KeyText(value)(k)
      modifies `sysctls
      ensures sysctls == base + Scaled(done + {k}, value)
    {
      OneMore(base, done, k, value);
      sysctls := sysctls[k.Name() := text];
    }

    method AssignNumber(k: ScaledKey, n: int, ghost base: map<string, string>, ghost done: set<ScaledKey>,
                        ghost value: ScaledKey -> int)
      requires sysctls == base + Scaled(done, value) && k.Lead() == [] && value(k) == n
      modifies `sysctls
      ensures sysctls == base + Scaled(done + {k}, value)
    {
      PlainText(n);
      Assign(k, Itoa(n), base, done, value);
    }

    method AssignBuffer(k: ScaledKey, smallest: string, usual: string, n: int,
                        ghost base: map<string, string>, ghost done: set<ScaledKey>, ghost value: ScaledKey -> int)
      requires sysctls == base + Scaled(done, value) && k.Lead() == [smallest, usual] && value(k) == n
      modifies `sysctls
      ensures sysctls == base + Scaled(done + {k}, value)
    {
      JoinThree(smallest, usual, Itoa(n));
      Assign(k, smallest + " " + usual + " " + Itoa(n), base, done, value);
    }

    /** Scaling writes its thirteen keys and leaves everything else of the profile alone. */
    method ApplyScaling(s: F.Sizing, conv: real -> int)
      modifies `sysctls
      ensures sysctls == old(sysctls) + ScaledSysctls(s, conv)
    {
      AllValues(s, conv);
      PutScaled(FileMax(s, conv), Somaxconn(s), ThreadsMax(s), Backlog(s, conv), RmemMax(s, conv), BpfJitLimit(s), Thresh3(s),
                KeyValue(s, conv));
    }

    method PutScaled(fileMax: int, somaxconn: int, threadsMax: int, backlog: int, rmemMax: int, bpfJitLimit: int, thresh3: int,
                     ghost value: ScaledKey -> int)
      requires ProcessValues(value, fileMax, somaxconn, threadsMax)
      requires BufferValues(value, backlog, rmemMax, rmemMax) && value(TcpRmemKey) == value(TcpWmemKey) == rmemMax
      requires TableValues(value, bpfJitLimit, thresh3)
      modifies `sysctls
      ensures sysctls == old(sysctls) + Scaled(ALL_KEYS, value)
    {
      ghost var base := sysctls;
      var wmemMax := rmemMax;
      NothingScaled(base, value);
      ScaleProcesses(fileMax, somaxconn, threadsMax, base, {}, value);
      ScaleBuffers(backlog, rmemMax, wmemMax, base, {} + PROCESS_KEYS, value);
      ScaleTcp(rmemMax, wmemMax, base, {} + PROCESS_KEYS + BUFFER_KEYS, value);
      ScaleTables(bpfJitLimit, thresh3, base, {} + PROCESS_KEYS + BUFFER_KEYS + TCP_KEYS, value);
      EveryGroup();
    }

    method ScaleProcesses(fileMax: int, somaxconn: int, threadsMax: int,
                          ghost base: map<string, string>, ghost done: set<ScaledKey>, ghost value: ScaledKey -> int)
      requires sysctls == base + Scaled(done, value) && ProcessValues(value, fileMax, somaxconn, threadsMax)
      modifies `sysctls
      ensures sysctls == base + Scaled(done + PROCESS_KEYS, value)
    {
      AssignNumber(FileMaxKey, fileMax, base, done, value);
      AssignNumber(SomaxconnKey, somaxconn, base, done + {FileMaxKey}, value);
      AssignNumber(ThreadsMaxKey, threadsMax, base, done + {FileMaxKey} + {SomaxconnKey}, value);
      AssignNumber(PidMaxKey, threadsMax, base, done + {FileMaxKey} + {SomaxconnKey} + {ThreadsMaxKey}, value);
      assert done + {FileMaxKey} + {SomaxconnKey} + {ThreadsMaxKey} + {PidMaxKey} == done + PROCESS_KEYS;
    }

    method ScaleBuffers(backlog: int, rmemMax: int, wmemMax: int,
                        ghost base: map<string, string>, ghost done: set<ScaledKey>, ghost value: ScaledKey -> int)
      requires sysctls == base + Scaled(done, value) && BufferValues(value, backlog, rmemMax, wmemMax)
      modifies `sysctls
      ensures sysctls == base + Scaled(done + BUFFER_KEYS, value)
    {
      AssignNumber(BacklogKey, backlog, base, done, value);
      AssignNumber(RmemMaxKey, rmemMax, base, done + {BacklogKey}, value);
      AssignNumber(WmemMaxKey, wmemMax, base, done + {BacklogKey} + {RmemMaxKey}, value);
      assert done + {BacklogKey} + {RmemMaxKey} + {WmemMaxKey} == done + BUFFER_KEYS;
    }

    method ScaleTcp(rmemMax: int, wmemMax: int,
                    ghost base: map<string, string>, ghost done: set<ScaledKey>, ghost value: ScaledKey -> int)
      requires sysctls == base + Scaled(done, value) && value(TcpRmemKey) == rmemMax && value(TcpWmemKey) == wmemMax
      modifies `sysctls
      ensures sysctls == base + Scaled(done + TCP_KEYS, value)
    {
      AssignBuffer(TcpRmemKey, "4096", "131072", rmemMax, base, done, value);
      AssignBuffer(TcpWmemKey, "4096", "65536", wmemMax, base, done + {TcpRmemKey}, value);
      assert done + {TcpRmemKey} + {TcpWmemKey} == done + TCP_KEYS;
    }

    method ScaleTables(bpfJitLimit: int, thresh3: int,
                       ghost base: map<string, string>, ghost done: set<ScaledKey>, ghost value: ScaledKey -> int)
      requires sysctls == base + Scaled(done, value) && TableValues(value, bpfJitLimit, thresh3)
      modifies `sysctls
      ensures sysctls == base + Scaled(done + TABLE_KEYS, value)
    {
      var thresh2 := Max(thresh3 / 2, 512);
      var thresh1 := Max(thresh3 / 8, 128);
      AssignNumber(BpfJitLimitKey, bpfJitLimit, base, done, value);
      AssignNumber(Thresh1Key, thresh1, base, done + {BpfJitLimitKey}, value);
      AssignNumber(Thresh2Key, thresh2, base, done + {BpfJitLimitKey} + {Thresh1Key}, value);
      AssignNumber(Thresh3Key, thresh3, base, done + {BpfJitLimitKey} + {Thresh1Key} + {Thresh2Key}, value);
      assert done + {BpfJitLimitKey} + {Thresh1Key} + {Thresh2Key} + {Thresh3Key} == done + TABLE_KEYS;
    }

    method ApplyCiliumPrereqs(o: CiliumOptions)
      modifies this
      ensures Value() == WithCilium(old(Value()), o)
    {
      mounts := mounts + [BPFFS];
      var tunnel := TunnelModules(o.tunnelMode);
      if o.legacyIPTables {
        modules := modules + tunnel + ["br_netfilter", "nf_conntrack", "iptable_nat", "iptable_filter"];
        sysctls := sysctls + BRIDGE_SYSCTLS;
      } else {
        NothingAdded(modules + tunnel, sysctls);
        modules := modules + tunnel;
      }
    }

    method ApplyOverrides(ov: Overrides)
      modifies this
      ensures Value() == WithOverrides(old(Value()), ov)
    {
      OverrideSysctls(ov);
      OverrideNetwork(ov);
      OverrideScheduler(ov);
      assert Value() == WithOverrides(old(Value()), ov);
    }

    method OverrideSysctls(ov: Overrides)
      modifies `sysctls, `hugePages, `noFile, `cpuGovernor
      ensures sysctls == old(sysctls) + ov.sysctls + HugePageSysctls(ov.hugePages2M)
      ensures hugePages == if ov.hugePages2M > 0 then Some(ov.hugePages2M) else old(hugePages)
      ensures noFile == if ov.noFileLimit > 0 then ov.noFileLimit else old(noFile)
      ensures cpuGovernor == Or(ov.cpuGovernor, old(cpuGovernor))
    {
      sysctls := sysctls + ov.sysctls;
      if ov.noFileLimit > 0 { noFile := ov.noFileLimit; }
      if ov.cpuGovernor.Some? { cpuGovernor := ov.cpuGovernor.value; }
      if ov.hugePages2M > 0 {
        hugePages := Some(ov.hugePages2M);
        sysctls := sysctls + HugePageSysctls(ov.hugePages2M);
      } else {
        NothingAdded([], sysctls);
      }
    }

    method OverrideNetwork(ov: Overrides)
      modifies `irq, `ringBufferMax, `rps, `xps
      ensures irq == Or(ov.irqAffinity, old(irq)) && ringBufferMax == Or(ov.ringBufferMax, old(ringBufferMax))
      ensures rps == Or(ov.rps, old(rps)) && xps == Or(ov.xps, old(xps))
    {
      if ov.irqAffinity.Some? { irq := ov.irqAffinity.value; }
      if ov.ringBufferMax.Some? { ringBufferMax := ov.ringBufferMax.value; }
      if ov.rps.Some? { rps := ov.rps.value; }
      if ov.xps.Some? { xps := ov.xps.value; }
    }

    method OverrideScheduler(ov: Overrides)
      modifies `ioScheduler, `ioEnabled
      ensures ioScheduler == Or(ov.ioScheduler, old(ioScheduler))
      ensures ioEnabled == if ov.ioScheduler.Some? then ov.ioScheduler.value != "" else old(ioEnabled)
    {
      if ov.ioScheduler.Some? {
        ioScheduler := ov.ioScheduler.value;
        ioEnabled := ov.ioScheduler.value != "";
      }
    }
  }

  lemma NothingAdded(s: seq<string>, m: map<string, string>)
    ensures s + [] == s && m + map[] == m
  {}

  lemma EveryGroup()
    ensures {} + PROCESS_KEYS + BUFFER_KEYS + TCP_KEYS + TABLE_KEYS == ALL_KEYS
  {}

  lemma OneMore(base: map<string, string>, done: set<ScaledKey>, k: ScaledKey, value: ScaledKey -> int)
    ensures base + Scaled(done + {k}, value) == (base + Scaled(done, value))[k.Name() := KeyText(value)(k)]
  {
    NamesInjective();
    TableGrows(base, done, KeyName(), KeyText(value), k);
  }

  lemma NothingScaled(base: map<string, string>, value: ScaledKey -> int)
    ensures base == base + Scaled({}, value)
  {
    assert Scaled({}, value) == map[];
  }

  ghost predicate ProcessValues(value: ScaledKey -> int, fileMax: int, somaxconn: int, threadsMax: int) {
    value(FileMaxKey) == fileMax && value(SomaxconnKey) == somaxconn && value(ThreadsMaxKey) == value(PidMaxKey) == threadsMax
  }

  ghost predicate BufferValues(value: ScaledKey -> int, backlog: int, rmemMax: int, wmemMax: int) {
    value(BacklogKey) == backlog && value(RmemMaxKey) == rmemMax && value(WmemMaxKey) == wmemMax
  }

  ghost predicate TableValues(value: ScaledKey -> int, bpfJitLimit: int, thresh3: int) {
    && value(BpfJitLimitKey) == bpfJitLimit && value(Thresh3Key) == thresh3
    && value(Thresh1Key) == Max(thresh3 / 8, 128) && value(Thresh2Key) == Max(thresh3 / 2, 512)
  }

  lemma AllValues(s: F.Sizing, conv: real -> int)
    ensures ProcessValues(KeyValue(s, conv), FileMax(s, conv), Somaxconn(s), ThreadsMax(s))
    ensures BufferValues(KeyValue(s, conv), Backlog(s, conv), RmemMax(s, conv), RmemMax(s, conv))
    ensures KeyValue(s, conv)(TcpRmemKey) == KeyValue(s, conv)(TcpWmemKey) == RmemMax(s, conv)
    ensures TableValues(KeyValue(s, conv), BpfJitLimit(s), Thresh3(s))
  {}

  lemma PlainText(n: int)
    ensures Join([] + [Itoa(n)], " ") == Itoa(n)
  {
    assert [] + [Itoa(n)] == [Itoa(n)];
  }

  lemma JoinThree(a: string, b: string, c: string)
    ensures Join([a, b] + [c], " ") == a + " " + b + " " + c
  {
    assert [a, b] + [c] == [a, b, c] && [a, b, c][1..] == [b, c] && [b, c][1..] == [c];
    assert Join([b, c], " ") == b + " " + c;
  }

  method Build(s: F.Sizing, ov: Overrides, conv: real -> int) returns (p: NodeProfile)
    ensures fresh(p) && p.Value() == DesiredState(s, ov, conv)
  {
    p := new NodeProfile(s);
    p.ApplyScaling(s, conv);
    p.ApplyCiliumPrereqs(ov.cilium);
    p.ApplyOverrides(ov);
  }

  // ---- what the scaling guarantees

  /** An override is what the node gets, except that a positive hugepage count beats an override of its sysctl. */
  lemma OverrideWinsIff(s: F.Sizing, ov: Overrides, conv: real -> int, key: string)
    requires key in ov.sysctls
    ensures key in DesiredState(s, ov, conv).sysctls
    ensures DesiredState(s, ov, conv).sysctls[key] == ov.sysctls[key]
      <==> !(key == HUGEPAGES && ov.hugePages2M > 0 && ov.sysctls[key] != Itoa(ov.hugePages2M))
  {
    var b := Base(s);
    LastWins(WithCilium(b.(sysctls := b.sysctls + ScaledSysctls(s, conv)), ov.cilium).sysctls, ov, key);
  }

  lemma LastWins(computed: map<string, string>, ov: Overrides, key: string)
    requires key in ov.sysctls
    ensures var m := computed + ov.sysctls + HugePageSysctls(ov.hugePages2M);
      key in m && m[key] == if key == HUGEPAGES && ov.hugePages2M > 0 then Itoa(ov.hugePages2M) else ov.sysctls[key]
  {}

  /** The sysctls of a built profile, layer by layer. */
  lemma SysctlLayers(s: F.Sizing, ov: Overrides, conv: real -> int)
    ensures DesiredState(s, ov, conv).sysctls
      == BASE_SYSCTLS + ScaledSysctls(s, conv) + BridgePart(ov.cilium) + ov.sysctls + HugePageSysctls(ov.hugePages2M)
  {}

  lemma Layered(a: map<string, string>, b: map<string, string>, c: map<string, string>, d: map<string, string>, e: map<string, string>, key: string)
    ensures var m := a + b + c + d + e;
      && (key in m <==> key in a || key in b || key in c || key in d || key in e)
      && (key in b && key !in c && key !in d && key !in e ==> m[key] == b[key])
      && (key in c && key !in d && key !in e ==> m[key] == c[key])
  {}

  /** Where a key of a built profile comes from. */
  lemma KeySource(s: F.Sizing, ov: Overrides, conv: real -> int, key: string)
    requires key in DesiredState(s, ov, conv).sysctls
    ensures key in BASE_SYSCTLS || key in ScaledSysctls(s, conv) || key in BRIDGE_SYSCTLS || key in ov.sysctls || key == HUGEPAGES
  {
    SysctlLayers(s, ov, conv);
    Layered(BASE_SYSCTLS, ScaledSysctls(s, conv), BridgePart(ov.cilium), ov.sysctls, HugePageSysctls(ov.hugePages2M), key);
  }

  lemma ScaledSurvives(s: F.Sizing, ov: Overrides, conv: real -> int, key: string)
    requires key in ScaledSysctls(s, conv) && key !in ov.sysctls && key != HUGEPAGES && key !in BRIDGE_SYSCTLS
    ensures var p := DesiredState(s, ov, conv).sysctls; key in p && p[key] == ScaledSysctls(s, conv)[key]
  {
    SysctlLayers(s, ov, conv);
    Layered(BASE_SYSCTLS, ScaledSysctls(s, conv), BridgePart(ov.cilium), ov.sysctls, HugePageSysctls(ov.hugePages2M), key);
  }

  /** With iptables rules asked for, the bridge sysctl reaches the node unless the operator overrides it. */
  lemma BridgeSurvives(s: F.Sizing, ov: Overrides, conv: real -> int)
    requires ov.cilium.legacyIPTables && BRIDGE_KEY !in ov.sysctls
    ensures var p := DesiredState(s, ov, conv).sysctls; BRIDGE_KEY in p && p[BRIDGE_KEY] == "1"
  {
    BridgeLookup();
    SysctlLayers(s, ov, conv);
    Layered(BASE_SYSCTLS, ScaledSysctls(s, conv), BRIDGE_SYSCTLS, ov.sysctls, HugePageSysctls(ov.hugePages2M), BRIDGE_KEY);
  }

  lemma BridgeLookup()
    ensures BRIDGE_KEY in BRIDGE_SYSCTLS && BRIDGE_SYSCTLS[BRIDGE_KEY] == "1"
    ensures forall n :: BRIDGE_KEY !in HugePageSysctls(n)
  {
    assert |BRIDGE_KEY| == 34 && |NET_BRIDGE + "bridge-nf-call-ip6tables"| == 35;
    assert |HUGEPAGES| == 15;
  }

  lemma ScaledKeysApart(k: ScaledKey)
    ensures k.Name() != HUGEPAGES && k.Name() !in BRIDGE_SYSCTLS
  {
    Fingerprints(k);
    assert |HUGEPAGES| == 15;
    assert |NET_BRIDGE + "bridge-nf-call-iptables"| == 34 && |NET_BRIDGE + "bridge-nf-call-ip6tables"| == 35;
  }

  lemma EveryKey(k: ScaledKey)
    ensures k in ALL_KEYS
  {}

  lemma ScaledEntries(keys: set<ScaledKey>, value: ScaledKey -> int)
    ensures forall k :: k in keys ==> k.Name() in Scaled(keys, value) && Scaled(keys, value)[k.Name()] == KeyText(value)(k)
    ensures forall key :: key in Scaled(keys, value) ==> exists k :: k in keys && key == k.Name()
  {
    NamesInjective();
    TableLookup(keys, KeyName(), KeyText(value));
    forall k: ScaledKey ensures KeyName()(k) == k.Name() {}
  }

  lemma ScaledLookup(s: F.Sizing, conv: real -> int, k: ScaledKey)
    ensures k.Name() in ScaledSysctls(s, conv)
    ensures ScaledSysctls(s, conv)[k.Name()] == Join(k.Lead() + [Itoa(k.Value(s, conv))], " ")
  {
    EveryKey(k);
    ScaledEntries(ALL_KEYS, KeyValue(s, conv));
  }

  lemma ScaledNames(s: F.Sizing, conv: real -> int, key: string)
    requires key in ScaledSysctls(s, conv)
    ensures exists k: ScaledKey :: key == k.Name()
  {
    ScaledEntries(ALL_KEYS, KeyValue(s, conv));
  }

  /** What a node gets for `key`: the number in the last field. */
  function Number(sysctls: map<string, string>, key: string): Option<int> {
    if key !in sysctls || Fields(sysctls[key]) == [] then None
    else var fields := Fields(sysctls[key]); Atoi(fields[|fields| - 1])
  }

  lemma LeadWords(k: ScaledKey)
    ensures forall w :: w in k.Lead() ==> Word(w)
  {
    assert Word("4096") && Word("131072") && Word("65536");
  }

  lemma ItoaIsWord(n: int)
    ensures Word(Itoa(n))
  {
    ItoaChars(n);
  }

  lemma ScaledNumber(sysctls: map<string, string>, key: string, lead: seq<string>, v: int)
    requires key in sysctls && sysctls[key] == Join(lead + [Itoa(v)], " ") && IsInt64(v)
    requires forall w :: w in lead ==> Word(w)
    ensures Fields(sysctls[key]) == lead + [Itoa(v)] && Number(sysctls, key) == Some(v)
  {
    ItoaIsWord(v);
    FieldsJoin(lead + [Itoa(v)]);
    AtoiItoa(v);
  }

  lemma ValueInRange(s: F.Sizing, conv: real -> int, k: ScaledKey)
    ensures k.Range().0 <= k.Value(s, conv) <= k.Range().1 && IsInt64(k.Value(s, conv))
  {}

  /**
   * A scaled key that the operator leaves alone reaches the node as the fields in front and the scaled number, which
   * lies in its documented range even where the arithmetic wraps around.
   */
  lemma ScaledInRange(s: F.Sizing, ov: Overrides, conv: real -> int, k: ScaledKey)
    requires k.Name() !in ov.sysctls
    ensures var p := DesiredState(s, ov, conv).sysctls;
      && k.Name() in p && Fields(p[k.Name()]) == k.Lead() + [Itoa(k.Value(s, conv))]
      && Number(p, k.Name()) == Some(k.Value(s, conv))
      && k.Range().0 <= k.Value(s, conv) <= k.Range().1
  {
    ScaledKeysApart(k);
    ScaledLookup(s, conv, k);
    ScaledSurvives(s, ov, conv, k.Name());
    ValueInRange(s, conv, k);
    LeadWords(k);
    ScaledNumber(DesiredState(s, ov, conv).sysctls, k.Name(), k.Lead(), k.Value(s, conv));
  }

  /** Whatever the facts, wrap-around included, the neighbour thresholds of the built profile are in order. */
  lemma ThresholdsInOrder(s: F.Sizing, ov: Overrides, conv: real -> int)
    requires Thresh1Key.Name() !in ov.sysctls && Thresh2Key.Name() !in ov.sysctls && Thresh3Key.Name() !in ov.sysctls
    ensures var p := DesiredState(s, ov, conv).sysctls;
      var t1, t2, t3 := Number(p, Thresh1Key.Name()), Number(p, Thresh2Key.Name()), Number(p, Thresh3Key.Name());
      t1.Some? && t2.Some? && t3.Some? && 128 <= t1.value < t2.value < t3.value <= 131_072
  {
    BuiltNumber(s, ov, conv, Thresh1Key);
    BuiltNumber(s, ov, conv, Thresh2Key);
    BuiltNumber(s, ov, conv, Thresh3Key);
    ThresholdOrder(s, conv);
  }

  lemma ThresholdOrder(s: F.Sizing, conv: real -> int)
    ensures 128 <= Thresh1Key.Value(s, conv) < Thresh2Key.Value(s, conv) < Thresh3Key.Value(s, conv) <= 131_072
  {}

  lemma BuiltNumber(s: F.Sizing, ov: Overrides, conv: real -> int, k: ScaledKey)
    requires k.Name() !in ov.sysctls
    ensures Number(DesiredState(s, ov, conv).sysctls, k.Name()) == Some(k.Value(s, conv))
  {
    ScaledInRange(s, ov, conv, k);
  }

  /** Memory in MiB times 128, clamped: the division by 1024 and the product with 131072 cancel exactly. */
  lemma FileMaxExact(s: F.Sizing, conv: real -> int)
    requires ConvertsInt64(conv) && s.memMiB < 0x100_0000_0000_0000
    ensures FileMax(s, conv) == Clamp(MemMiB(s) * 128, 1_048_576, 12_582_912)
  {
    var m := MemMiB(s);
    assert m as real / 1024.0 * 131072.0 == (m * 128) as real;
    assert Trunc((m * 128) as real) == m * 128;
  }

  predicate NoLarger(s: F.Sizing, t: F.Sizing) {
    && s.vcpus <= t.vcpus && s.memMiB <= t.memMiB && s.bandwidthGbps <= t.bandwidthGbps
    && s.maxENIs <= t.maxENIs && s.ipv4PerENI <= t.ipv4PerENI
  }

  /** Far above any instance: the products that scaling forms still fit in 64 bits. */
  predicate Fits(s: F.Sizing) {
    && s.vcpus < 0x100_0000_0000 && s.memMiB < 0x100_0000_0000_0000 && 0.0 <= s.bandwidthGbps < 1099511627776.0
    && Positive(s.maxENIs) * Positive(s.ipv4PerENI) < 0x800_0000_0000_0000
  }

  lemma TruncMonotone(x: real, y: real)
    requires 0.0 <= x <= y
    ensures 0 <= Trunc(x) <= Trunc(y) && Trunc(y) as real <= y
  {}

  lemma ProductMonotone(a: int, b: int, c: int, d: int)
    requires 0 < a <= c && 0 < b <= d
    ensures 0 < a * b <= c * d
  {
    assert a * b <= c * b;
    assert c * b <= c * d;
  }

  lemma NeighborsMonotone(s: F.Sizing, t: F.Sizing)
    requires NoLarger(s, t) && Fits(t)
    ensures Thresh3(s) <= Thresh3(t)
  {
    ProductMonotone(Positive(s.maxENIs), Positive(s.ipv4PerENI), Positive(t.maxENIs), Positive(t.ipv4PerENI));
  }

  lemma BandwidthMonotone(s: F.Sizing, t: F.Sizing, conv: real -> int)
    requires ConvertsInt64(conv) && NoLarger(s, t) && Fits(t) && s.bandwidthGbps >= 0.0
    ensures Backlog(s, conv) <= Backlog(t, conv) && RmemMax(s, conv) <= RmemMax(t, conv)
  {
    TruncMonotone(s.bandwidthGbps, t.bandwidthGbps);
    TruncMonotone(s.bandwidthGbps * 2000.0, t.bandwidthGbps * 2000.0);
    assert Trunc(t.bandwidthGbps) < 0x100_0000_0000;
    assert t.bandwidthGbps * 2000.0 < 2199023255552000.0;
  }

  lemma ValueMonotone(s: F.Sizing, t: F.Sizing, conv: real -> int, k: ScaledKey)
    requires ConvertsInt64(conv) && NoLarger(s, t) && Fits(t) && s.bandwidthGbps >= 0.0
    ensures k.Value(s, conv) <= k.Value(t, conv)
  {
    FileMaxExact(s, conv);
    FileMaxExact(t, conv);
    BandwidthMonotone(s, t, conv);
    NeighborsMonotone(s, t);
  }

  /** The scaled value, with the rates written out, over the integers: per CPU, per Gbit/s, or per neighbour. */
  function Exact(k: ScaledKey, s: F.Sizing): int {
    var cpus, gbps := Positive(s.vcpus), Trunc(s.bandwidthGbps);
    var neighbors := Clamp(16 * (Positive(s.maxENIs) * Positive(s.ipv4PerENI)), 1024, 131_072);
    match k
    case FileMaxKey => Clamp(128 * (if s.memMiB <= 0 then 1024 else s.memMiB), 1_048_576, 12_582_912)
    case SomaxconnKey => Clamp(2048 * cpus, 4096, 65535)
    case ThreadsMaxKey | PidMaxKey => Clamp(4096 * cpus, 131_072, 4_194_304)
    case BacklogKey => Clamp(Trunc(2000.0 * s.bandwidthGbps), 4096, 250_000)
    case RmemMaxKey | WmemMaxKey | TcpRmemKey | TcpWmemKey => Clamp(2_097_152 * gbps, 4_194_304, 134_217_728)
    case BpfJitLimitKey => Clamp(8_388_608 * cpus, 268_435_456, 1_073_741_824)
    case Thresh1Key => neighbors / 8
    case Thresh2Key => neighbors / 2
    case Thresh3Key => neighbors
  }

  lemma ValueExact(s: F.Sizing, conv: real -> int, k: ScaledKey)
    requires ConvertsInt64(conv) && Fits(s)
    ensures k.Value(s, conv) == Exact(k, s)
  {
    FileMaxExact(s, conv);
    BandwidthExact(s, conv);
    if k == Thresh1Key || k == Thresh2Key || k == Thresh3Key { ThresholdsExact(s); }
  }

  lemma BandwidthExact(s: F.Sizing, conv: real -> int)
    requires ConvertsInt64(conv) && Fits(s)
    ensures Backlog(s, conv) == Clamp(Trunc(2000.0 * s.bandwidthGbps), 4096, 250_000)
    ensures RmemMax(s, conv) == Clamp(2_097_152 * Trunc(s.bandwidthGbps), 4_194_304, 134_217_728)
  {
    var g := s.bandwidthGbps;
    TruncMonotone(0.0, g);
    TruncMonotone(0.0, g * 2000.0);
    assert Trunc(g) < 0x100_0000_0000;
    assert g * 2000.0 == 2000.0 * g && g * 2000.0 < 2199023255552000.0;
  }

  lemma ThresholdsExact(s: F.Sizing)
    requires Fits(s)
    ensures var n := Clamp(16 * (Positive(s.maxENIs) * Positive(s.ipv4PerENI)), 1024, 131_072);
      Thresh3(s) == n && Thresh2(s) == n / 2 && Thresh1(s) == n / 8
  {
    ProductMonotone(1, 1, Positive(s.maxENIs), Positive(s.ipv4PerENI));
  }

  /** While the products fit, a scaled key that the operator leaves alone reaches the node with exactly that number. */
  lemma ScaledExactly(s: F.Sizing, ov: Overrides, conv: real -> int, k: ScaledKey)
    requires k.Name() !in ov.sysctls && ConvertsInt64(conv) && Fits(s)
    ensures Number(DesiredState(s, ov, conv).sysctls, k.Name()) == Some(Exact(k, s))
  {
    ValueExact(s, conv, k);
    BuiltNumber(s, ov, conv, k);
  }

  // ---- what is not scaled

  /** The fixed sysctls, by name. */
  datatype FixedKey =
    | MaxMapCount | Swappiness | UserWatches | UserInstances | NrOpen | IpForward | JitEnable | JitHarden | Unprivileged
    | Panic | PanicOnOops
  {
    function Name(): string {
      match this
      case MaxMapCount => VM + "max_map_count"
      case Swappiness => VM + "swappiness"
      case UserWatches => FS_INOTIFY + "max_user_watches"
      case UserInstances => FS_INOTIFY + "max_user_instances"
      case NrOpen => FS + "nr_open"
      case IpForward => NET_IPV4 + "ip_forward"
      case JitEnable => NET_CORE + "bpf_jit_enable"
      case JitHarden => NET_CORE + "bpf_jit_harden"
      case Unprivileged => KERNEL + "unprivileged_bpf_disabled"
      case Panic => KERNEL + "panic"
      case PanicOnOops => KERNEL + "panic_on_oops"
    }

    function Value(): string {
      match this
      case MaxMapCount => "262144"
      case Swappiness => "0"
      case UserWatches => "1048576"
      case UserInstances => "8192"
      case NrOpen => "1048576"
      case IpForward => "1"
      case JitEnable => "1"
      case JitHarden => "0"
      case Unprivileged => "1"
      case Panic => "10"
      case PanicOnOops => "1"
    }
  }

  /** Told apart by length, and where lengths agree by one character. */
  lemma FixedLengths(k: FixedKey)
    ensures |k.Name()| == match k
      case MaxMapCount => 16
      case Swappiness => 13
      case UserWatches => 27
      case UserInstances => 29
      case NrOpen => 10
      case IpForward => 19
      case JitEnable => 23
      case JitHarden => 23
      case Unprivileged => 32
      case Panic => 12
      case PanicOnOops => 20
    ensures k == UserWatches ==> k.Name()[0] == 'f'
    ensures k == JitEnable ==> k.Name()[17] == 'e'
    ensures k == JitHarden ==> k.Name()[17] == 'h'
  {}

  lemma FixedLookup(k: FixedKey)
    ensures k.Name() in BASE_SYSCTLS && BASE_SYSCTLS[k.Name()] == k.Value()
  {
    FixedLengths(MaxMapCount);
    FixedLengths(Swappiness);
    FixedLengths(UserWatches);
    FixedLengths(UserInstances);
    FixedLengths(NrOpen);
    FixedLengths(IpForward);
    FixedLengths(JitEnable);
    FixedLengths(JitHarden);
    FixedLengths(Unprivileged);
    FixedLengths(Panic);
    FixedLengths(PanicOnOops);
  }

  lemma FixedIsNotScaled(k: FixedKey, other: ScaledKey)
    ensures k.Name() != other.Name()
  {
    FixedLengths(k);
    Fingerprints(other);
    if other == BacklogKey { assert other.Name()[0] == 'n'; }
  }

  lemma FixedKeysApart(s: F.Sizing, conv: real -> int, k: FixedKey)
    ensures k.Name() !in ScaledSysctls(s, conv) && k.Name() !in BRIDGE_SYSCTLS && k.Name() != HUGEPAGES
  {
    FixedLengths(k);
    assert |HUGEPAGES| == 15;
    assert |BRIDGE_KEY| == 34 && |NET_BRIDGE + "bridge-nf-call-ip6tables"| == 35;
    if k.Name() in ScaledSysctls(s, conv) {
      ScaledNames(s, conv, k.Name());
      var other: ScaledKey :| k.Name() == other.Name();
      FixedIsNotScaled(k, other);
    }
  }

  /** A fixed sysctl that the operator leaves alone reaches the node with its value. */
  lemma FixedReaches(s: F.Sizing, ov: Overrides, conv: real -> int, k: FixedKey)
    requires k.Name() !in ov.sysctls
    ensures var p := DesiredState(s, ov, conv).sysctls; k.Name() in p && p[k.Name()] == k.Value()
  {
    FixedLookup(k);
    FixedKeysApart(s, conv, k);
    SysctlLayers(s, ov, conv);
    BottomLayer(BASE_SYSCTLS, ScaledSysctls(s, conv), BridgePart(ov.cilium), ov.sysctls, HugePageSysctls(ov.hugePages2M), k.Name());
  }

  lemma BottomLayer(a: map<string, string>, b: map<string, string>, c: map<string, string>, d: map<string, string>, e: map<string, string>, key: string)
    requires key in a && key !in b && key !in c && key !in d && key !in e
    ensures key in a + b + c + d + e && (a + b + c + d + e)[key] == a[key]
  {}

  /** The keys of a built profile: the fixed and the scaled ones, the two bridge keys if iptables rules are asked for, the
      hugepage count if one is, and the operator's; no others. */
  lemma BuiltKeys(s: F.Sizing, ov: Overrides, conv: real -> int, key: string)
    ensures key in DesiredState(s, ov, conv).sysctls <==>
      || key in BASE_SYSCTLS || (exists k: ScaledKey :: key == k.Name())
      || (ov.cilium.legacyIPTables && (key == BRIDGE_KEY || key == NET_BRIDGE + "bridge-nf-call-ip6tables"))
      || (ov.hugePages2M > 0 && key == HUGEPAGES) || key in ov.sysctls
  {
    SysctlLayers(s, ov, conv);
    Layered(BASE_SYSCTLS, ScaledSysctls(s, conv), BridgePart(ov.cilium), ov.sysctls, HugePageSysctls(ov.hugePages2M), key);
    if key in ScaledSysctls(s, conv) { ScaledNames(s, conv, key); }
    if k: ScaledKey :| key == k.Name() { ScaledLookup(s, conv, k); }
  }

  /** A hugepage count reaches the node as its sysctl, and both bridge sysctls as 1 unless overridden. */
  lemma OptionalKeys(s: F.Sizing, ov: Overrides, conv: real -> int)
    ensures var p := DesiredState(s, ov, conv).sysctls;
      && (ov.hugePages2M > 0 ==> HUGEPAGES in p && p[HUGEPAGES] == Itoa(ov.hugePages2M))
      && (ov.cilium.legacyIPTables ==> forall key :: key in BRIDGE_SYSCTLS && key !in ov.sysctls ==> key in p && p[key] == "1")
  {
    BridgeValues();
    SysctlLayers(s, ov, conv);
    forall key | key in BRIDGE_SYSCTLS && key !in ov.sysctls && ov.cilium.legacyIPTables
      ensures key in DesiredState(s, ov, conv).sysctls && DesiredState(s, ov, conv).sysctls[key] == "1"
    {
      Layered(BASE_SYSCTLS, ScaledSysctls(s, conv), BridgePart(ov.cilium), ov.sysctls, HugePageSysctls(ov.hugePages2M), key);
    }
  }

  lemma BridgeValues()
    ensures forall key :: key in BRIDGE_SYSCTLS ==> BRIDGE_SYSCTLS[key] == "1" && key != HUGEPAGES
  {
    assert |HUGEPAGES| == 15 && |BRIDGE_KEY| == 34 && |NET_BRIDGE + "bridge-nf-call-ip6tables"| == 35;
  }

  /** Everything but the sysctls: what the operator set, and otherwise the defaults. */
  lemma BuiltSettings(s: F.Sizing, ov: Overrides, conv: real -> int)
    ensures var p := DesiredState(s, ov, conv);
      && p.noFile == (if ov.noFileLimit > 0 then ov.noFileLimit else 1048576) && p.nproc == 0
      && p.cpuGovernor == (if ov.cpuGovernor.Some? then ov.cpuGovernor.value else "performance")
      && p.hugePages == (if ov.hugePages2M > 0 then Some(ov.hugePages2M) else None)
      && p.irq == (if ov.irqAffinity.Some? then ov.irqAffinity.value else s.vcpus > 1)
      && p.ringBufferMax == (ov.ringBufferMax.Some? ==> ov.ringBufferMax.value)
      && p.rps == (ov.rps.Some? ==> ov.rps.value) && p.xps == (ov.xps.Some? ==> ov.xps.value)
      && p.ioScheduler == (if ov.ioScheduler.Some? then ov.ioScheduler.value else "none")
      && p.ioEnabled == (ov.ioScheduler != Some(""))
      && p.swapOff
  {}

  /** The modules are the tunnel's, then the four that iptables rules need. */
  lemma BuiltModules(s: F.Sizing, ov: Overrides, conv: real -> int)
    ensures var p := DesiredState(s, ov, conv).modules; var o := ov.cilium;
      var tables := if o.legacyIPTables then ["br_netfilter", "nf_conntrack", "iptable_nat", "iptable_filter"] else [];
      && (o.tunnelMode == "vxlan" ==> p == ["vxlan"] + tables)
      && (o.tunnelMode == "geneve" ==> p == ["geneve"] + tables)
      && (o.tunnelMode != "vxlan" && o.tunnelMode != "geneve" ==> p == tables)
  {
    var tables := if ov.cilium.legacyIPTables then ["br_netfilter", "nf_conntrack", "iptable_nat", "iptable_filter"] else [];
    assert [] + [] + tables == tables && [] + ["vxlan"] + tables == ["vxlan"] + tables && [] + ["geneve"] + tables == ["geneve"] + tables;
  }

  /** Of two built profiles, the one of the larger instance never has the smaller value, as long as the products fit. */
  lemma ScalingMonotone(s: F.Sizing, t: F.Sizing, small: Overrides, large: Overrides, conv: real -> int, k: ScaledKey)
    requires k.Name() !in small.sysctls && k.Name() !in large.sysctls
    requires ConvertsInt64(conv) && NoLarger(s, t) && Fits(t) && s.bandwidthGbps >= 0.0
    ensures var a := Number(DesiredState(s, small, conv).sysctls, k.Name());
      var b := Number(DesiredState(t, large, conv).sysctls, k.Name());
      a.Some? && b.Some? && a.value <= b.value
  {
    ScaledInRange(s, small, conv, k);
    ScaledInRange(t, large, conv, k);
    ValueMonotone(s, t, conv, k);
  }

  /** Beyond that it fails: 2^30 interfaces with 2^30 addresses each wrap the neighbour table round to its floor. */
  lemma WrapBreaksMonotonicity(s: F.Sizing, ov: Overrides, conv: real -> int)
    requires Thresh3Key.Name() !in ov.sysctls
    ensures var large, small := s.(maxENIs := 0x4000_0000, ipv4PerENI := 0x4000_0000), s.(maxENIs := 64, ipv4PerENI := 64);
      var a := Number(DesiredState(large, ov, conv).sysctls, Thresh3Key.Name());
      var b := Number(DesiredState(small, ov, conv).sysctls, Thresh3Key.Name());
      NoLarger(small, large) && a == Some(1024) && b == Some(65536)
  {
    var large, small := s.(maxENIs := 0x4000_0000, ipv4PerENI := 0x4000_0000), s.(maxENIs := 64, ipv4PerENI := 64);
    WrappedThreshold(large, small);
    BuiltAs(large, ov, conv, Thresh3Key, 1024);
    BuiltAs(small, ov, conv, Thresh3Key, 65536);
  }

  lemma BuiltAs(s: F.Sizing, ov: Overrides, conv: real -> int, k: ScaledKey, v: int)
    requires k.Name() !in ov.sysctls && k.Value(s, conv) == v
    ensures Number(DesiredState(s, ov, conv).sysctls, k.Name()) == Some(v)
  {
    BuiltNumber(s, ov, conv, k);
  }

  lemma WrappedThreshold(large: F.Sizing, small: F.Sizing)
    requires large.maxENIs == large.ipv4PerENI == 0x4000_0000 && small.maxENIs == small.ipv4PerENI == 64
    ensures Thresh3(large) == 1024 && Thresh3(small) == 65536
  {
    assert MaxNeighborEntries(large) == 0x1000_0000_0000_0000 && Wrap64(0x1000_0000_0000_0000 * 16) == 0;
    assert MaxNeighborEntries(small) == 4096;
  }
}
