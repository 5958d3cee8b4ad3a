/** The whole list the engine builds, over every part of a node: the shared host, then IRQs, NIC, CPUs and block devices. */
module Machine {
  import opened Numbers
  import opened Text
  import opened Engine
  import opened HostState
  import opened SwapMount
  import opened HostUnits
  import opened Convergence
  import opened HostHistory
  import I = IrqAffinity
  import N = NicTuning
  import G = CpuGovernor
  import B = IoScheduler

  /** An interface whose report has the seven places where a driver may print other lines. */
  type Nic = h: N.NicHost | |h.gaps| == 7
    witness N.NicHost(N.Rings(None, None, None, None), [[], [], [], [], [], [], []], false, false, [], [])

  datatype System = System(host: Host, irq: I.IrqHost, nic: Nic, cpus: G.CpuHost, block: B.BlockHost)

  /** The optional resources at the end of the list. */
  datatype Tail = Tail(
    irq: Option<I.IRQAffinityResource>, nic: Option<N.NICResource>, governor: Option<string>, scheduler: Option<string>)

  /** What the kernel reads back in the files those resources write. */
  datatype Echoes = Echoes(affinity: string -> string, mask: (nat, string) -> string, governor: string -> string)

  // ---- the resources

  function IrqUnit(r: I.IRQAffinityResource, e: Echoes): Resource<I.IrqHost> {
    Resource("irq-affinity", (h: I.IrqHost) => r.Check(h), (h: I.IrqHost) => r.Apply(h, e.affinity))
  }

  function ApplyNic(r: N.NICResource, h: Nic, e: Echoes): Applied<Nic> {
    var a := r.Apply(h, e.mask);
    Applied(a.state, a.ok)
  }

  function NicUnit(r: N.NICResource, e: Echoes): Resource<Nic> {
    Resource("nic-tuning", (h: Nic) => r.Check(h), (h: Nic) => ApplyNic(r, h, e))
  }

  function GovernorUnit(governor: string, e: Echoes): Resource<G.CpuHost> {
    Resource("cpu-governor", (h: G.CpuHost) => G.Check(h, governor), (h: G.CpuHost) => G.Apply(h, governor, e.governor))
  }

  function SchedulerUnit(scheduler: string): Resource<B.BlockHost> {
    Resource("io-scheduler", (h: B.BlockHost) => B.Check(h, scheduler), (h: B.BlockHost) => B.Apply(h, scheduler))
  }

  function IrqUnits(t: Tail, e: Echoes): seq<Resource<I.IrqHost>> { if t.irq.Some? then [IrqUnit(t.irq.value, e)] else [] }

  function NicUnits(t: Tail, e: Echoes): seq<Resource<Nic>> { if t.nic.Some? then [NicUnit(t.nic.value, e)] else [] }

  function GovernorUnits(t: Tail, e: Echoes): seq<Resource<G.CpuHost>> {
    if t.governor.Some? then [GovernorUnit(t.governor.value, e)] else []
  }

  function SchedulerUnits(t: Tail): seq<Resource<B.BlockHost>> {
    if t.scheduler.Some? then [SchedulerUnit(t.scheduler.value)] else []
  }

  function HostPart(): Lens<System, Host> { Lens((n: System) => n.host, (n: System, h: Host) => n.(host := h)) }
  function IrqPart(): Lens<System, I.IrqHost> { Lens((n: System) => n.irq, (n: System, h: I.IrqHost) => n.(irq := h)) }
  function NicPart(): Lens<System, Nic> { Lens((n: System) => n.nic, (n: System, h: Nic) => n.(nic := h)) }
  function CpuPart(): Lens<System, G.CpuHost> { Lens((n: System) => n.cpus, (n: System, h: G.CpuHost) => n.(cpus := h)) }
  function BlockPart(): Lens<System, B.BlockHost> { Lens((n: System) => n.block, (n: System, h: B.BlockHost) => n.(block := h)) }

  /** Everything after the shared host's resources. */
  function TailUnits(e: Echoes, t: Tail): seq<Resource<System>> {
    LiftAll(IrqPart(), IrqUnits(t, e)) + (LiftAll(NicPart(), NicUnits(t, e))
      + (LiftAll(CpuPart(), GovernorUnits(t, e)) + LiftAll(BlockPart(), SchedulerUnits(t))))
  }

  /** Sysctl, and everything after it. */
  function AllFirst(k: Kernel, c: Config): seq<Resource<System>> { LiftAll(HostPart(), First(k, c)) }

  function AllRest(k: Kernel, e: Echoes, c: Config, t: Tail): seq<Resource<System>> {
    LiftAll(HostPart(), Rest(k, c)) + TailUnits(e, t)
  }

  /** The engine's list, in its order. */
  function All(k: Kernel, e: Echoes, c: Config, t: Tail): seq<Resource<System>> { AllFirst(k, c) + AllRest(k, e, c, t) }

  lemma AllIsHostThenTail(k: Kernel, e: Echoes, c: Config, t: Tail)
    ensures All(k, e, c, t) == LiftAll(HostPart(), HostUnits.Build(k, c)) + TailUnits(e, t)
  {
    LiftConcat(HostPart(), First(k, c), Rest(k, c));
  }

  function Pass(k: Kernel, e: Echoes, c: Config, t: Tail, n: System): System { FinalState(All(k, e, c, t), n, ModeApply) }

  // ---- a run is a run on every part

  lemma TailRun(e: Echoes, t: Tail, n: System, mode: Mode)
    ensures FinalState(TailUnits(e, t), n, mode) == System(n.host,
      FinalState(IrqUnits(t, e), n.irq, mode), FinalState(NicUnits(t, e), n.nic, mode),
      FinalState(GovernorUnits(t, e), n.cpus, mode), FinalState(SchedulerUnits(t), n.block, mode))
    ensures Results(TailUnits(e, t), n, mode) == Results(IrqUnits(t, e), n.irq, mode) + (Results(NicUnits(t, e), n.nic, mode)
      + (Results(GovernorUnits(t, e), n.cpus, mode) + Results(SchedulerUnits(t), n.block, mode)))
  {
    var irq, nic := LiftAll(IrqPart(), IrqUnits(t, e)), LiftAll(NicPart(), NicUnits(t, e));
    var cpus, block := LiftAll(CpuPart(), GovernorUnits(t, e)), LiftAll(BlockPart(), SchedulerUnits(t));
    var n1 := FinalState(irq, n, mode);
    var n2 := FinalState(nic, n1, mode);
    var n3 := FinalState(cpus, n2, mode);
    RunConcat(irq, nic + (cpus + block), n, mode);
    RunConcat(nic, cpus + block, n1, mode);
    RunConcat(cpus, block, n2, mode);
    LiftedRun(IrqPart(), IrqUnits(t, e), n, mode);
    LiftedRun(NicPart(), NicUnits(t, e), n1, mode);
    LiftedRun(CpuPart(), GovernorUnits(t, e), n2, mode);
    LiftedRun(BlockPart(), SchedulerUnits(t), n3, mode);
  }

  /** The shared host runs as if alone, and so does the rest. */
  lemma PartsRun(k: Kernel, e: Echoes, c: Config, t: Tail, n: System, mode: Mode)
    ensures FinalState(All(k, e, c, t), n, mode)
      == FinalState(TailUnits(e, t), n, mode).(host := FinalState(HostUnits.Build(k, c), n.host, mode))
    ensures Results(All(k, e, c, t), n, mode)
      == Results(HostUnits.Build(k, c), n.host, mode) + Results(TailUnits(e, t), n, mode)
  {
    var host := LiftAll(HostPart(), HostUnits.Build(k, c));
    var next := FinalState(host, n, mode);
    AllIsHostThenTail(k, e, c, t);
    RunConcat(host, TailUnits(e, t), n, mode);
    LiftedRun(HostPart(), HostUnits.Build(k, c), n, mode);
    TailRun(e, t, n, mode);
    TailRun(e, t, next, mode);
  }

  // ---- every part settles, and no part disturbs another

  /** Read-backs keep what was written, and the governor has no white space around it (with any, it never settles:
      CpuGovernor.NeverSettles). */
  ghost predicate Sound(e: Echoes, t: Tail) {
    && I.EchoesNumbers(e.affinity) && N.EchoKeeps(e.mask) && G.EchoTrims(e.governor)
    && (t.governor.Some? ==> TrimSpace(t.governor.value) == t.governor.value)
  }

  /** Units leave the listing as the run needs, and the files are in the formats the kernel and the driver use. */
  ghost function Stable(k: Kernel, c: Config): System -> bool {
    (n: System) => Leaving(k, c)(n.host) && N.ValidNic(n.nic) && B.ValidHost(n.block)
  }

  lemma IrqSettles(t: Tail, e: Echoes, h: I.IrqHost)
    requires I.EchoesNumbers(e.affinity)
    ensures forall r :: r in IrqUnits(t, e) ==> Settles(r, h)
  {
    if t.irq.Some? && t.irq.value.Apply(h, e.affinity).ok { t.irq.value.ApplyConverges(h, e.affinity); }
  }

  lemma NicSettles(t: Tail, e: Echoes, h: Nic)
    requires N.EchoKeeps(e.mask) && N.ValidNic(h)
    ensures forall r :: r in NicUnits(t, e) ==> Settles(r, h) && N.ValidNic(r.apply(h).state)
  {
    if t.nic.Some? {
      t.nic.value.ApplyKeepsValid(h, e.mask);
      if t.nic.value.Apply(h, e.mask).ok { t.nic.value.ApplyConverges(h, e.mask); }
    }
  }

  lemma GovernorSettles(t: Tail, e: Echoes, h: G.CpuHost)
    requires G.EchoTrims(e.governor) && (t.governor.Some? ==> TrimSpace(t.governor.value) == t.governor.value)
    ensures forall r :: r in GovernorUnits(t, e) ==> Settles(r, h)
  {
    if t.governor.Some? && t.governor.value != "" && G.Apply(h, t.governor.value, e.governor).ok {
      G.SettlesIff(h, t.governor.value, e.governor);
    }
  }

  lemma SchedulerSettles(t: Tail, h: B.BlockHost)
    requires B.ValidHost(h)
    ensures forall r :: r in SchedulerUnits(t) ==> Settles(r, h) && B.ValidHost(r.apply(h).state)
  {
    if t.scheduler.Some? {
      B.ApplyKeepsValid(h.devices, h, t.scheduler.value);
      if t.scheduler.value != "" && B.Apply(h, t.scheduler.value).ok { B.ApplyConverges(h, t.scheduler.value); }
    }
  }

  lemma TailHonest(e: Echoes, t: Tail)
    ensures AllHonest(IrqUnits(t, e)) && AllHonest(NicUnits(t, e)) && AllHonest(GovernorUnits(t, e)) && AllHonest(SchedulerUnits(t))
  {
    IrqHonest(e, t);
    NicHonest(e, t);
    GovernorHonest(e, t);
    SchedulerHonest(t);
  }

  lemma IrqHonest(e: Echoes, t: Tail)
    ensures AllHonest(IrqUnits(t, e))
  {}

  lemma NicHonest(e: Echoes, t: Tail)
    ensures AllHonest(NicUnits(t, e))
  {}

  lemma GovernorHonest(e: Echoes, t: Tail)
    ensures AllHonest(GovernorUnits(t, e))
  {}

  lemma SchedulerHonest(t: Tail)
    ensures AllHonest(SchedulerUnits(t))
  {}

  lemma TailSettles(k: Kernel, e: Echoes, c: Config, t: Tail)
    requires Sound(e, t)
    ensures SettlesUnder(TailUnits(e, t), Stable(k, c))
  {
    var inv := Stable(k, c);
    forall n | inv(n)
      ensures forall r :: r in IrqUnits(t, e) ==> Settles(r, n.irq)
      ensures forall r :: r in NicUnits(t, e) ==> Settles(r, n.nic) && N.ValidNic(r.apply(n.nic).state)
      ensures forall r :: r in GovernorUnits(t, e) ==> Settles(r, n.cpus)
      ensures forall r :: r in SchedulerUnits(t) ==> Settles(r, n.block) && B.ValidHost(r.apply(n.block).state)
    {
      IrqSettles(t, e, n.irq);
      NicSettles(t, e, n.nic);
      GovernorSettles(t, e, n.cpus);
      SchedulerSettles(t, n.block);
    }
    LiftedSettlesUnder(IrqPart(), IrqUnits(t, e), inv);
    LiftedSettlesUnder(NicPart(), NicUnits(t, e), inv);
    LiftedSettlesUnder(CpuPart(), GovernorUnits(t, e), inv);
    LiftedSettlesUnder(BlockPart(), SchedulerUnits(t), inv);
    var irq, nic := LiftAll(IrqPart(), IrqUnits(t, e)), LiftAll(NicPart(), NicUnits(t, e));
    var cpus, block := LiftAll(CpuPart(), GovernorUnits(t, e)), LiftAll(BlockPart(), SchedulerUnits(t));
    SettlesUnderConcat(cpus, block, inv);
    SettlesUnderConcat(nic, cpus + block, inv);
    SettlesUnderConcat(irq, nic + (cpus + block), inv);
  }

  lemma TailOrdered(e: Echoes, t: Tail)
    ensures Ordered(TailUnits(e, t))
  {
    var irq, nic := LiftAll(IrqPart(), IrqUnits(t, e)), LiftAll(NicPart(), NicUnits(t, e));
    var cpus, block := LiftAll(CpuPart(), GovernorUnits(t, e)), LiftAll(BlockPart(), SchedulerUnits(t));
    LiftedAt(IrqPart(), IrqUnits(t, e));
    LiftedAt(NicPart(), NicUnits(t, e));
    LiftedAt(CpuPart(), GovernorUnits(t, e));
    LiftedAt(BlockPart(), SchedulerUnits(t));
    SeparateRespect(BlockPart(), CpuPart(), SchedulerUnits(t), GovernorUnits(t, e));
    OrderedConcat(cpus, block);
    SeparateRespect(CpuPart(), NicPart(), GovernorUnits(t, e), NicUnits(t, e));
    SeparateRespect(BlockPart(), NicPart(), SchedulerUnits(t), NicUnits(t, e));
    RespectConcat(cpus, block, nic);
    OrderedConcat(nic, cpus + block);
    SeparateRespect(NicPart(), IrqPart(), NicUnits(t, e), IrqUnits(t, e));
    SeparateRespect(CpuPart(), IrqPart(), GovernorUnits(t, e), IrqUnits(t, e));
    SeparateRespect(BlockPart(), IrqPart(), SchedulerUnits(t), IrqUnits(t, e));
    RespectConcat(cpus, block, irq);
    RespectConcat(nic, cpus + block, irq);
    OrderedConcat(irq, nic + (cpus + block));
  }

  lemma TailAndHost(e: Echoes, t: Tail, rs: seq<Resource<Host>>)
    ensures AllRespect(TailUnits(e, t), LiftAll(HostPart(), rs)) && AllRespect(LiftAll(HostPart(), rs), TailUnits(e, t))
  {
    var irq, nic := LiftAll(IrqPart(), IrqUnits(t, e)), LiftAll(NicPart(), NicUnits(t, e));
    var cpus, block := LiftAll(CpuPart(), GovernorUnits(t, e)), LiftAll(BlockPart(), SchedulerUnits(t));
    var host := LiftAll(HostPart(), rs);
    SeparateRespect(IrqPart(), HostPart(), IrqUnits(t, e), rs);
    SeparateRespect(NicPart(), HostPart(), NicUnits(t, e), rs);
    SeparateRespect(CpuPart(), HostPart(), GovernorUnits(t, e), rs);
    SeparateRespect(BlockPart(), HostPart(), SchedulerUnits(t), rs);
    SeparateRespect(HostPart(), IrqPart(), rs, IrqUnits(t, e));
    SeparateRespect(HostPart(), NicPart(), rs, NicUnits(t, e));
    SeparateRespect(HostPart(), CpuPart(), rs, GovernorUnits(t, e));
    SeparateRespect(HostPart(), BlockPart(), rs, SchedulerUnits(t));
    RespectConcat(cpus, block, host);
    RespectConcat(nic, cpus + block, host);
    RespectConcat(irq, nic + (cpus + block), host);
  }

  lemma HostSettles(k: Kernel, c: Config)
    requires Lawful(k, c) && Sensible(c)
    ensures SettlesUnder(AllFirst(k, c), Stable(k, c)) && SettlesUnder(LiftAll(HostPart(), Rest(k, c)), Stable(k, c))
  {
    HostPartSettles(k, c, First(k, c));
    HostPartSettles(k, c, Rest(k, c));
  }

  lemma HostPartSettles(k: Kernel, c: Config, rs: seq<Resource<Host>>)
    requires Lawful(k, c) && Sensible(c) && forall r :: r in rs ==> r in HostUnits.Build(k, c)
    ensures SettlesUnder(LiftAll(HostPart(), rs), Stable(k, c))
  {
    var inv, l := Stable(k, c), HostPart();
    forall r, n | r in rs && inv(n) ensures Settles(r, l.get(n)) && inv(l.put(n, r.apply(l.get(n)).state)) {
      UnitSettles(k, c, r, n.host);
      LeavingStays(k, c, r, n.host);
    }
    LiftedSettlesUnder(l, rs, inv);
  }

  lemma AllOrdered(k: Kernel, e: Echoes, c: Config, t: Tail)
    requires Lawful(k, c) && Sensible(c)
    ensures Ordered(AllRest(k, e, c, t)) && AllRespect(AllFirst(k, c), AllRest(k, e, c, t))
  {
    RestOrdered(k, c);
    FirstRespects(k, c);
    LiftedOrdered(HostPart(), Rest(k, c));
    LiftedAllRespect(HostPart(), First(k, c), Rest(k, c));
    TailOrdered(e, t);
    TailAndHost(e, t, Rest(k, c));
    TailAndHost(e, t, First(k, c));
    OrderedConcat(LiftAll(HostPart(), Rest(k, c)), TailUnits(e, t));
    RespectConcat(LiftAll(HostPart(), Rest(k, c)), TailUnits(e, t), AllFirst(k, c));
  }

  lemma AllSettles(k: Kernel, e: Echoes, c: Config, t: Tail)
    requires Lawful(k, c) && Sensible(c) && Sound(e, t)
    ensures SettlesUnder(AllFirst(k, c), Stable(k, c)) && SettlesUnder(AllRest(k, e, c, t), Stable(k, c))
  {
    HostSettles(k, c);
    TailSettles(k, e, c, t);
    SettlesUnderConcat(LiftAll(HostPart(), Rest(k, c)), TailUnits(e, t), Stable(k, c));
  }

  // ---- whole runs, whatever fails

  /** A node, a configuration and a kernel that the theorems speak of; anything on the node may fail. */
  ghost predicate Ready(k: Kernel, e: Echoes, c: Config, t: Tail, n: System) {
    Lawful(k, c) && Sensible(c) && Sound(e, t) && Stable(k, c)(n)
  }

  /** What a run over the whole list is for, said of the node alone. */
  ghost predicate NodeConverged(c: Config, t: Tail, n: System) {
    && Converged(c, n.host)
    && (t.irq.Some? && t.irq.value.iface != "" && t.irq.value.numCPUs > 1 ==> n.irq.interrupts.Some? && t.irq.value.Spread(n.irq))
    && (t.nic.Some? && t.nic.value.iface != "" ==> t.nic.value.InPlace(n.nic))
    && (t.governor.Some? && t.governor.value != "" ==> n.cpus.paths.Some? && G.AllRun(n.cpus, t.governor.value))
    && (t.scheduler.Some? && t.scheduler.value != "" ==> B.AllRun(n.block, t.scheduler.value))
  }

  lemma TailMeans(e: Echoes, t: Tail, n: System)
    requires N.ValidNic(n.nic) && B.ValidHost(n.block)
    ensures (forall r :: r in IrqUnits(t, e) ==> Quiet(r, n.irq))
      <==> (t.irq.Some? && t.irq.value.iface != "" && t.irq.value.numCPUs > 1 ==> n.irq.interrupts.Some? && t.irq.value.Spread(n.irq))
    ensures (forall r :: r in NicUnits(t, e) ==> Quiet(r, n.nic))
      <==> (t.nic.Some? && t.nic.value.iface != "" ==> t.nic.value.InPlace(n.nic))
    ensures (forall r :: r in GovernorUnits(t, e) ==> Quiet(r, n.cpus))
      <==> (t.governor.Some? && t.governor.value != "" ==> n.cpus.paths.Some? && G.AllRun(n.cpus, t.governor.value))
    ensures (forall r :: r in SchedulerUnits(t) ==> Quiet(r, n.block))
      <==> (t.scheduler.Some? && t.scheduler.value != "" ==> B.AllRun(n.block, t.scheduler.value))
  {
    if t.irq.Some? { IrqMeans(t, e, n.irq); }
    if t.nic.Some? { NicMeans(t, e, n.nic); }
    if t.governor.Some? { GovernorMeans(t, e, n.cpus); }
    if t.scheduler.Some? { SchedulerMeans(t, n.block); }
  }

  lemma IrqMeans(t: Tail, e: Echoes, h: I.IrqHost)
    requires t.irq.Some?
    ensures (forall r :: r in IrqUnits(t, e) ==> Quiet(r, h))
      <==> (t.irq.value.iface != "" && t.irq.value.numCPUs > 1 ==> h.interrupts.Some? && t.irq.value.Spread(h))
  {
    t.irq.value.CheckIff(h);
    assert IrqUnit(t.irq.value, e) in IrqUnits(t, e);
  }

  lemma NicMeans(t: Tail, e: Echoes, h: Nic)
    requires t.nic.Some? && N.ValidNic(h)
    ensures (forall r :: r in NicUnits(t, e) ==> Quiet(r, h)) <==> (t.nic.value.iface != "" ==> t.nic.value.InPlace(h))
  {
    t.nic.value.CheckIff(h);
    assert NicUnit(t.nic.value, e) in NicUnits(t, e);
  }

  lemma GovernorMeans(t: Tail, e: Echoes, h: G.CpuHost)
    requires t.governor.Some?
    ensures (forall r :: r in GovernorUnits(t, e) ==> Quiet(r, h))
      <==> (t.governor.value != "" ==> h.paths.Some? && G.AllRun(h, t.governor.value))
  {
    G.CheckIff(h, t.governor.value);
    assert GovernorUnit(t.governor.value, e) in GovernorUnits(t, e);
  }

  lemma SchedulerMeans(t: Tail, h: B.BlockHost)
    requires t.scheduler.Some? && B.ValidHost(h)
    ensures (forall r :: r in SchedulerUnits(t) ==> Quiet(r, h)) <==> (t.scheduler.value != "" ==> B.AllRun(h, t.scheduler.value))
  {
    B.CheckIff(h, t.scheduler.value);
    assert SchedulerUnit(t.scheduler.value) in SchedulerUnits(t);
  }

  lemma QuietByParts(k: Kernel, e: Echoes, c: Config, t: Tail, n: System)
    ensures (forall r :: r in All(k, e, c, t) ==> Quiet(r, n)) <==>
      && AllClean(k, c, n.host)
      && (forall r :: r in IrqUnits(t, e) ==> Quiet(r, n.irq)) && (forall r :: r in NicUnits(t, e) ==> Quiet(r, n.nic))
      && (forall r :: r in GovernorUnits(t, e) ==> Quiet(r, n.cpus)) && (forall r :: r in SchedulerUnits(t) ==> Quiet(r, n.block))
  {
    AllIsHostThenTail(k, e, c, t);
    LiftedQuiet(HostPart(), HostUnits.Build(k, c), n);
    LiftedQuiet(IrqPart(), IrqUnits(t, e), n);
    LiftedQuiet(NicPart(), NicUnits(t, e), n);
    LiftedQuiet(CpuPart(), GovernorUnits(t, e), n);
    LiftedQuiet(BlockPart(), SchedulerUnits(t), n);
    FiveParts(LiftAll(HostPart(), HostUnits.Build(k, c)), LiftAll(IrqPart(), IrqUnits(t, e)), LiftAll(NicPart(), NicUnits(t, e)),
              LiftAll(CpuPart(), GovernorUnits(t, e)), LiftAll(BlockPart(), SchedulerUnits(t)), n);
  }

  /** No Check of the whole list finds anything to do exactly when everything is in place. */
  lemma QuietMeans(k: Kernel, e: Echoes, c: Config, t: Tail, n: System)
    requires N.ValidNic(n.nic) && B.ValidHost(n.block)
    ensures (forall r :: r in All(k, e, c, t) ==> Quiet(r, n)) <==> NodeConverged(c, t, n)
  {
    QuietByParts(k, e, c, t, n);
    CleanMeans(k, c, n.host);
    TailMeans(e, t, n);
  }

  lemma FiveParts(a: seq<Resource<System>>, b: seq<Resource<System>>, c: seq<Resource<System>>, d: seq<Resource<System>>,
                  f: seq<Resource<System>>, n: System)
    ensures (forall r :: r in a + (b + (c + (d + f))) ==> Quiet(r, n)) <==>
      && (forall r :: r in a ==> Quiet(r, n)) && (forall r :: r in b ==> Quiet(r, n)) && (forall r :: r in c ==> Quiet(r, n))
      && (forall r :: r in d ==> Quiet(r, n)) && (forall r :: r in f ==> Quiet(r, n))
  {
    assert forall r :: r in a + (b + (c + (d + f))) <==> r in a || r in b || r in c || r in d || r in f;
  }

  /** A failure in one resource does not stop the rest: after an apply run on any node, every resource but sysctl that
      was not reported as failed has nothing left to do. */
  lemma FailureDoesNotSpread(k: Kernel, e: Echoes, c: Config, t: Tail, n: System)
    requires Ready(k, e, c, t, n)
    ensures UnfailedAreQuiet(AllFirst(k, c), AllRest(k, e, c, t), n)
  {
    AllIsHonest(k, e, c, t);
    AllOrdered(k, e, c, t);
    AllSettles(k, e, c, t);
    RestIsolated(AllFirst(k, c), AllRest(k, e, c, t), n, Stable(k, c));
  }

  lemma RestIsQuiet(k: Kernel, e: Echoes, c: Config, t: Tail, n: System)
    requires Ready(k, e, c, t, n) && NoneFailed(Results(All(k, e, c, t), n, ModeApply))
    ensures forall r :: r in AllRest(k, e, c, t) ==> Quiet(r, Pass(k, e, c, t, n))
  {
    AllIsHonest(k, e, c, t);
    AllOrdered(k, e, c, t);
    AllSettles(k, e, c, t);
    RestQuiet(AllFirst(k, c), AllRest(k, e, c, t), n, Stable(k, c));
  }

  lemma FirstIsOne(k: Kernel, c: Config)
    ensures |AllFirst(k, c)| <= 1
    ensures c.parts.sysctl ==> AllFirst(k, c) == [Lift(HostPart(), SysctlUnit(k, c.sysctl))]
  {
    LiftedAt(HostPart(), First(k, c));
  }

  /** After an apply run without a failure, the second one reports no change exactly when loading the modules exposed
      no wanted key unreadable or with another value. */
  lemma SecondRunQuietIff(k: Kernel, e: Echoes, c: Config, t: Tail, n: System)
    requires Ready(k, e, c, t, n) && NoneFailed(Results(All(k, e, c, t), n, ModeApply))
    ensures AllQuiet(Results(All(k, e, c, t), Pass(k, e, c, t, n), ModeApply)) <==> forall key :: !Pending(k, c, n.host, key)
  {
    var next := Pass(k, e, c, t, n);
    AllIsHonest(k, e, c, t);
    AllOrdered(k, e, c, t);
    RestIsQuiet(k, e, c, t, n);
    FirstIsOne(k, c);
    OnlyFirstMoves(AllFirst(k, c), AllRest(k, e, c, t), next);
    FirstQuietIff(k, c, next);
    HostRun(k, e, c, t, n);
    SysctlQuietIff(k, c, n.host);
  }

  lemma FirstQuietIff(k: Kernel, c: Config, n: System)
    ensures (forall r :: r in AllFirst(k, c) ==> Quiet(r, n)) <==> (c.parts.sysctl ==> Quiet(SysctlUnit(k, c.sysctl), n.host))
  {
    FirstIsOne(k, c);
    if c.parts.sysctl {
      var u, x := SysctlUnit(k, c.sysctl), Lift(HostPart(), SysctlUnit(k, c.sysctl));
      assert x.check(n) == u.check(n.host);
      assert x in AllFirst(k, c) && forall r :: r in AllFirst(k, c) ==> r == x;
    }
  }

  /** The shared host runs as if alone. */
  lemma HostRun(k: Kernel, e: Echoes, c: Config, t: Tail, n: System)
    ensures Pass(k, e, c, t, n).host == ApplyPass(k, c, n.host)
    ensures NoneFailed(Results(All(k, e, c, t), n, ModeApply)) ==> NoneFailed(Results(HostUnits.Build(k, c), n.host, ModeApply))
  {
    PartsRun(k, e, c, t, n, ModeApply);
    AllQuietConcat(Results(HostUnits.Build(k, c), n.host, ModeApply), Results(TailUnits(e, t), n, ModeApply));
  }

  lemma SysctlQuietIff(k: Kernel, c: Config, h: Host)
    requires Convergence.Ready(k, c, h) && NoneFailed(Results(HostUnits.Build(k, c), h, ModeApply))
    ensures (c.parts.sysctl ==> Quiet(SysctlUnit(k, c.sysctl), ApplyPass(k, c, h))) <==> forall key :: !Pending(k, c, h, key)
  {
    OnePassIff(k, c, h);
    Convergence.RestIsQuiet(k, c, h);
    CleanUpToSysctl(k, c, ApplyPass(k, c, h));
  }

  /** After two apply runs without a failure everything is in place, and every further run changes nothing, reports
      nothing pending and exits 0, in either mode. */
  lemma ThirdRunIsQuiet(k: Kernel, e: Echoes, c: Config, t: Tail, n: System, mode: Mode)
    requires Ready(k, e, c, t, n)
    requires NoneFailed(Results(All(k, e, c, t), n, ModeApply)) && NoneFailed(Results(All(k, e, c, t), Pass(k, e, c, t, n), ModeApply))
    ensures var n2 := Pass(k, e, c, t, Pass(k, e, c, t, n));
      && FinalState(All(k, e, c, t), n2, mode) == n2
      && AllQuiet(Results(All(k, e, c, t), n2, mode)) && ExitCodeOf(Results(All(k, e, c, t), n2, mode), mode) == 0
      && NodeConverged(c, t, n2)
  {
    AllIsHonest(k, e, c, t);
    AllOrdered(k, e, c, t);
    AllSettles(k, e, c, t);
    FirstIsOne(k, c);
    TwoRunsSettle(AllFirst(k, c), AllRest(k, e, c, t), n, Stable(k, c));
    var n2 := Pass(k, e, c, t, Pass(k, e, c, t, n));
    QuietRun(All(k, e, c, t), n2, mode);
    assert Stable(k, c)(n2);
    QuietMeans(k, e, c, t, n2);
  }

  /** Where nothing on the shared host fails, a first run without a failure is followed by one without. */
  lemma HealthySecondRun(k: Kernel, e: Echoes, c: Config, t: Tail, n: System)
    requires Ready(k, e, c, t, n) && Healthy(n.host) && NoneFailed(Results(All(k, e, c, t), n, ModeApply))
    ensures NoneFailed(Results(All(k, e, c, t), Pass(k, e, c, t, n), ModeApply))
  {
    var next := Pass(k, e, c, t, n);
    PartsRun(k, e, c, t, n, ModeApply);
    PartsRun(k, e, c, t, next, ModeApply);
    HealthyRunSucceeds(k, c, n.host);
    HealthyRunSucceeds(k, c, next.host);
    RestIsQuiet(k, e, c, t, n);
    QuietRun(TailUnits(e, t), next, ModeApply);
    AllQuietConcat(Results(HostUnits.Build(k, c), next.host, ModeApply), Results(TailUnits(e, t), next, ModeApply));
  }

  /** Whatever run of whatever part of the list, on a node that neither overlooks nor cuts short a backup: what
      `KeepsOriginal` says of the two fstab files. */
  lemma RunKeepsOriginal(k: Kernel, e: Echoes, c: Config, t: Tail, n: System, mode: Mode)
    requires Apart(c) && (SafeHost(n.host) || NoEdits(n.host))
    ensures KeepsOriginal(n.host, FinalState(All(k, e, c, t), n, mode).host)
  {
    PartsRun(k, e, c, t, n, mode);
    HostHistory.RunKeepsOriginal(k, c, n.host, mode);
  }

  // ---- reports

  lemma AllIsHonest(k: Kernel, e: Echoes, c: Config, t: Tail)
    ensures AllHonest(All(k, e, c, t)) && AllHonest(AllFirst(k, c)) && AllHonest(AllRest(k, e, c, t))
  {
    BuildIsHonest(k, c);
    TailHonest(e, t);
    LiftedHonest(HostPart(), First(k, c));
    LiftedHonest(HostPart(), Rest(k, c));
    LiftedHonest(IrqPart(), IrqUnits(t, e));
    LiftedHonest(NicPart(), NicUnits(t, e));
    LiftedHonest(CpuPart(), GovernorUnits(t, e));
    LiftedHonest(BlockPart(), SchedulerUnits(t));
  }

  /** No run of the tool in apply mode leaves a result pending. */
  lemma NothingPending(k: Kernel, e: Echoes, c: Config, t: Tail, n: System)
    ensures forall i :: 0 <= i < |All(k, e, c, t)| ==> Results(All(k, e, c, t), n, ModeApply)[i].status != WouldChange
  {
    AllIsHonest(k, e, c, t);
    ApplyLeavesNothingPending(All(k, e, c, t), n);
  }

  /** The exit code of every run of the tool: 1 iff a result failed; 2 iff in check mode something is pending and
      nothing failed. */
  lemma ExitCodeIs(k: Kernel, e: Echoes, c: Config, t: Tail, n: System, mode: Mode)
    ensures var rs := All(k, e, c, t); var code := ExitCodeOf(Results(rs, n, mode), mode);
      && (code == 1 <==> !NoneFailed(Results(rs, n, mode)))
      && (code == 2 <==> (mode == ModeCheck
            && (exists i :: 0 <= i < |rs| && rs[i].check(n) == Checked(WouldChange, false))
            && (forall i :: 0 <= i < |rs| ==> rs[i].check(n).status != Failed)))
      && code in {0, 1, 2}
  {
    AllIsHonest(k, e, c, t);
    ExitCodeMeans(All(k, e, c, t), n, mode);
  }

  // ---- filters

  function Keep<T>(o: Option<T>, name: string, disabled: seq<string>, skip: seq<string>, only: seq<string>): Option<T> {
    if Selected(name, disabled, skip, only) then o else None
  }

  function NarrowedTail(t: Tail, disabled: seq<string>, skip: seq<string>, only: seq<string>): Tail {
    Tail(Keep(t.irq, "irq-affinity", disabled, skip, only), Keep(t.nic, "nic-tuning", disabled, skip, only),
         Keep(t.governor, "cpu-governor", disabled, skip, only), Keep(t.scheduler, "io-scheduler", disabled, skip, only))
  }

  lemma FilterUnit<S>(rs: seq<Resource<S>>, disabled: seq<string>, skip: seq<string>, only: seq<string>)
    requires |rs| <= 1
    ensures FilterSpec(rs, disabled, skip, only) == if rs != [] && Selected(rs[0].name, disabled, skip, only) then rs else []
  {
    if rs != [] { assert rs == [rs[0]] + [] && rs[1..] == []; }
  }

  lemma FilterUnits(e: Echoes, t: Tail, disabled: seq<string>, skip: seq<string>, only: seq<string>)
    ensures var t' := NarrowedTail(t, disabled, skip, only);
      && FilterSpec(IrqUnits(t, e), disabled, skip, only) == IrqUnits(t', e)
      && FilterSpec(NicUnits(t, e), disabled, skip, only) == NicUnits(t', e)
      && FilterSpec(GovernorUnits(t, e), disabled, skip, only) == GovernorUnits(t', e)
      && FilterSpec(SchedulerUnits(t), disabled, skip, only) == SchedulerUnits(t')
  {
    FilterUnit(IrqUnits(t, e), disabled, skip, only);
    FilterUnit(NicUnits(t, e), disabled, skip, only);
    FilterUnit(GovernorUnits(t, e), disabled, skip, only);
    FilterUnit(SchedulerUnits(t), disabled, skip, only);
  }

  lemma FilterTail(e: Echoes, t: Tail, disabled: seq<string>, skip: seq<string>, only: seq<string>)
    ensures FilterSpec(TailUnits(e, t), disabled, skip, only) == TailUnits(e, NarrowedTail(t, disabled, skip, only))
  {
    var irq, nic := LiftAll(IrqPart(), IrqUnits(t, e)), LiftAll(NicPart(), NicUnits(t, e));
    var cpus, block := LiftAll(CpuPart(), GovernorUnits(t, e)), LiftAll(BlockPart(), SchedulerUnits(t));
    FilterConcat(irq, nic + (cpus + block), disabled, skip, only);
    FilterConcat(nic, cpus + block, disabled, skip, only);
    FilterConcat(cpus, block, disabled, skip, only);
    FilterLifted(IrqPart(), IrqUnits(t, e), disabled, skip, only);
    FilterLifted(NicPart(), NicUnits(t, e), disabled, skip, only);
    FilterLifted(CpuPart(), GovernorUnits(t, e), disabled, skip, only);
    FilterLifted(BlockPart(), SchedulerUnits(t), disabled, skip, only);
    FilterUnits(e, t, disabled, skip, only);
  }

  /** What the filters leave of the list is the list of the narrowed configuration, so the theorems above, which hold
      of every configuration, hold of every filtered run. */
  lemma FilteredIsNarrowed(k: Kernel, e: Echoes, c: Config, t: Tail, disabled: seq<string>, skip: seq<string>, only: seq<string>)
    ensures FilterSpec(All(k, e, c, t), disabled, skip, only)
      == All(k, e, Narrowed(c, disabled, skip, only), NarrowedTail(t, disabled, skip, only))
  {
    AllIsHostThenTail(k, e, c, t);
    AllIsHostThenTail(k, e, Narrowed(c, disabled, skip, only), NarrowedTail(t, disabled, skip, only));
    FilterConcat(LiftAll(HostPart(), HostUnits.Build(k, c)), TailUnits(e, t), disabled, skip, only);
    FilterLifted(HostPart(), HostUnits.Build(k, c), disabled, skip, only);
    FilterIsNarrowing(k, c, disabled, skip, only);
    FilterTail(e, t, disabled, skip, only);
  }
}
