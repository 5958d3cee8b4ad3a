/** Gathering facts: the instance metadata service, the EC2 API, local observation, and the cache between runs. */
module Facts {
  import opened Numbers
  import opened Text

  datatype Identity = Identity(instanceID: string, instanceType: string, region: string, zone: string, arch: string)

  datatype Sizing = Sizing(
    vcpus: int, memMiB: int, bandwidthGbps: real, enaSupport: bool, maxENIs: int, ipv4PerENI: int,
    nvmeInstanceStore: bool, bareMetal: bool, hypervisor: string)

  const NO_SIZING := Sizing(0, 0, 0.0, false, 0, 0, false, false, "")

  datatype Distro = Distro(id: string, versionID: string)

  datatype Source = NoSource | EC2API | LocalFallback

  datatype Warning = NoIMDS | NoEC2API | NotCached

  datatype Facts = Facts(
    identity: Identity, family: string, size: Sizing, distro: Distro, kernel: string, source: Source, warnings: seq<Warning>)

  /** What the kernel alone reveals. */
  datatype Local = Local(arch: string, vcpus: int, memMiB: int, bandwidthGbps: real, nvmeInstanceStore: bool)

  /** How writing the cache file goes: whole; not begun; cut short; or whole but reported as failed. */
  datatype SaveOutcome = Saved | NotWritten | Truncated | SavedButFailed

  /** Everything one run of Gather meets: its settings, the clock, the host, and the answers it gets. */
  datatype Run = Run(
    refresh: bool, cacheReadable: bool, ttl: int, now: int, savedAt: int, distro: Distro, kernel: string,
    imds: Option<Identity>, api: Option<Sizing>, local: Local, save: SaveOutcome)

  datatype Cache = Absent | Garbage | Valid(facts: Facts, cachedAt: int)

  /** The instance-type prefix before the first dot. */
  function Family(instanceType: string): string { Split(instanceType, '.')[0] }

  function LoadCache(c: Cache, instanceID: string, ttl: int, now: int): Option<Facts> {
    if !c.Valid? || instanceID == "" || c.facts.identity.instanceID != instanceID then None
    else if ttl > 0 && now - c.cachedAt > ttl then None
    else Some(c.facts)
  }

  function SaveCache(c: Cache, f: Facts, r: Run): Cache {
    match r.save
    case Saved => Valid(f, r.savedAt)
    case SavedButFailed => Valid(f, r.savedAt)
    case Truncated => Garbage
    case NotWritten => c
  }

  function FallbackSizing(l: Local): Sizing {
    NO_SIZING.(vcpus := l.vcpus, memMiB := l.memMiB, bandwidthGbps := l.bandwidthGbps, nvmeInstanceStore := l.nvmeInstanceStore)
  }

  predicate Hits(c: Cache, r: Run) {
    r.imds.Some? && !r.refresh && r.cacheReadable && LoadCache(c, r.imds.value.instanceID, r.ttl, r.now).Some?
  }

  /** What a run with no cache at all learns when the API answers with `size`. */
  function Answered(r: Run, size: Sizing): Facts
    requires r.imds.Some?
  {
    Facts(r.imds.value, Family(r.imds.value.instanceType), size, r.distro, r.kernel, EC2API, [])
  }

  /** `Gather`: the facts, and the cache it leaves. */
  function GatherStep(c: Cache, r: Run): (Facts, Cache) {
    if r.imds.None? then
      (Facts(Identity("", "", "", "", r.local.arch), "", FallbackSizing(r.local), r.distro, r.kernel, LocalFallback, [NoIMDS]), c)
    else if Hits(c, r) then
      (LoadCache(c, r.imds.value.instanceID, r.ttl, r.now).value.(distro := r.distro, kernel := r.kernel), c)
    else if r.api.None? then
      (Facts(r.imds.value, Family(r.imds.value.instanceType), FallbackSizing(r.local), r.distro, r.kernel, LocalFallback, [NoEC2API]), c)
    else
      var f := Answered(r, r.api.value);
      (if r.save == Saved then f else f.(warnings := [NotCached]), SaveCache(c, f, r))
  }

  /** The gatherer, with the cache file it keeps between runs. */
  class Gatherer {
    var cache: Cache

    constructor (c: Cache)
      ensures cache == c
    {
      cache := c;
    }

    method Gather(r: Run) returns (f: Facts)
      modifies this
      ensures (f, cache) == GatherStep(old(cache), r)
    {
      if r.imds.None? {
        f := Facts(Identity("", "", "", "", r.local.arch), "", FallbackSizing(r.local), r.distro, r.kernel, LocalFallback, []);
        f := f.(warnings := f.warnings + [NoIMDS]);
        assert f.warnings == [NoIMDS];
        return;
      }
      var identity := Facts(r.imds.value, Family(r.imds.value.instanceType), NO_SIZING, Distro("", ""), "", NoSource, []);
      if !r.refresh {
        var cached := if r.cacheReadable then LoadCache(cache, identity.identity.instanceID, r.ttl, r.now) else None;
        if cached.Some? {
          return cached.value.(distro := r.distro, kernel := r.kernel);
        }
      }
      f := identity;
      if r.api.None? {
        f := f.(size := FallbackSizing(r.local), source := LocalFallback, distro := r.distro, kernel := r.kernel);
        f := f.(warnings := f.warnings + [NoEC2API]);
        assert f.warnings == [NoEC2API];
        return;
      }
      f := f.(size := r.api.value, source := EC2API, distro := r.distro, kernel := r.kernel);
      cache := SaveCache(cache, f, r);
      if r.save != Saved {
        f := f.(warnings := f.warnings + [NotCached]);
        assert f.warnings == [NotCached];
      }
    }
  }

  // ---- histories

  function CacheAfter(c: Cache, runs: seq<Run>): Cache {
    if runs == [] then c else GatherStep(CacheAfter(c, runs[..|runs| - 1]), runs[|runs| - 1]).1
  }

  /** Run `j` reached the API, got an answer, and its write of the cache completed. */
  predicate Wrote(c: Cache, runs: seq<Run>, j: nat)
    requires j < |runs|
  {
    && runs[j].imds.Some? && runs[j].api.Some? && !Hits(CacheAfter(c, runs[..j]), runs[j])
    && (runs[j].save == Saved || runs[j].save == SavedButFailed)
  }

  /** The cache holds exactly the answer of run `j`. */
  predicate HoldsAnswerOf(c: Cache, r: Run) {
    r.imds.Some? && r.api.Some? && c == Valid(Answered(r, r.api.value), r.savedAt)
  }

  /** The last run that wrote the cache. */
  function LastWriter(c: Cache, runs: seq<Run>): Option<nat> {
    if runs == [] then None
    else if Wrote(c, runs, |runs| - 1) then Some(|runs| - 1)
    else LastWriter(c, runs[..|runs| - 1])
  }

  lemma WroteInPrefix(c: Cache, runs: seq<Run>, n: nat, i: nat)
    requires i < n <= |runs|
    ensures Wrote(c, runs[..n], i) <==> Wrote(c, runs, i)
  {
    assert runs[..n][..i] == runs[..i];
  }

  lemma {:induction false} LastWriterIsLast(c: Cache, runs: seq<Run>, i: nat)
    requires i < |runs| && Wrote(c, runs, i)
    ensures LastWriter(c, runs).Some? && i <= LastWriter(c, runs).value
  {
    if !Wrote(c, runs, |runs| - 1) {
      WroteInPrefix(c, runs, |runs| - 1, i);
      LastWriterIsLast(c, runs[..|runs| - 1], i);
    }
  }

  lemma {:induction false} LastWriterWrote(c: Cache, runs: seq<Run>)
    ensures LastWriter(c, runs).Some? ==>
      LastWriter(c, runs).value < |runs| && Wrote(c, runs, LastWriter(c, runs).value)
  {
    if runs != [] && !Wrote(c, runs, |runs| - 1) {
      var before := runs[..|runs| - 1];
      LastWriterWrote(c, before);
      if LastWriter(c, before).Some? { WroteInPrefix(c, runs, |runs| - 1, LastWriter(c, before).value); }
    }
  }

  /** Over every history: a valid entry is, unaltered, the API answer of the last run that wrote the cache. */
  lemma {:induction false} EntryIsLastAnswer(c: Cache, runs: seq<Run>)
    requires !c.Valid? && CacheAfter(c, runs).Valid?
    ensures LastWriter(c, runs).Some? && LastWriter(c, runs).value < |runs|
    ensures HoldsAnswerOf(CacheAfter(c, runs), runs[LastWriter(c, runs).value])
  {
    LastStep(c, runs);
    if !Wrote(c, runs, |runs| - 1) { EntryIsLastAnswer(c, runs[..|runs| - 1]); }
  }

  /** If the cache is valid after the last run, that run wrote it or left it as it was. */
  lemma LastStep(c: Cache, runs: seq<Run>)
    requires !c.Valid? && CacheAfter(c, runs).Valid?
    ensures runs != []
    ensures var n := |runs| - 1;
      if Wrote(c, runs, n) then HoldsAnswerOf(CacheAfter(c, runs), runs[n]) else CacheAfter(c, runs) == CacheAfter(c, runs[..n])
  {}

  /** No degraded fact is ever cached. */
  lemma NoDegradedEntry(c: Cache, runs: seq<Run>)
    requires !c.Valid? && CacheAfter(c, runs).Valid?
    ensures CacheAfter(c, runs).facts.source == EC2API && CacheAfter(c, runs).facts.warnings == []
  {
    EntryIsLastAnswer(c, runs);
  }

  /** Identity and sizing are functions of the instance ID throughout the history. */
  ghost predicate FixedAnswers(runs: seq<Run>, identityOf: string -> Identity, sizeOf: string -> Sizing) {
    forall j :: 0 <= j < |runs| && runs[j].imds.Some? ==>
      && runs[j].imds.value == identityOf(runs[j].imds.value.instanceID)
      && (runs[j].api.Some? ==> runs[j].api.value == sizeOf(runs[j].imds.value.instanceID))
  }

  /** A hit, after any history, is what this very run would learn from an answering API without a cache, and with a
      positive ttl it is no older than that. */
  lemma HitAgreesWithUncached(c: Cache, runs: seq<Run>, r: Run, identityOf: string -> Identity, sizeOf: string -> Sizing)
    requires !c.Valid? && Hits(CacheAfter(c, runs), r)
    requires FixedAnswers(runs + [r], identityOf, sizeOf)
    ensures GatherStep(CacheAfter(c, runs), r).0 == Answered(r, sizeOf(r.imds.value.instanceID))
    ensures var j := LastWriter(c, runs);
      && j.Some? && j.value < |runs| && Wrote(c, runs, j.value) && HoldsAnswerOf(CacheAfter(c, runs), runs[j.value])
      && (r.ttl > 0 ==> r.now - runs[j.value].savedAt <= r.ttl)
  {
    EntryIsLastAnswer(c, runs);
    LastWriterWrote(c, runs);
    var j := LastWriter(c, runs).value;
    assert (runs + [r])[j] == runs[j] && (runs + [r])[|runs|] == r;
  }

  /** With fixed answers the cache never changes what is learnt: every run after every history returns what it would
      return without a cache, or what it would have returned had the API answered. */
  lemma CacheIsTransparent(c: Cache, runs: seq<Run>, r: Run, identityOf: string -> Identity, sizeOf: string -> Sizing)
    requires !c.Valid? && FixedAnswers(runs + [r], identityOf, sizeOf)
    ensures var f := GatherStep(CacheAfter(c, runs), r).0;
      if Hits(CacheAfter(c, runs), r) then
        f == GatherStep(Absent, r.(api := Some(sizeOf(r.imds.value.instanceID)), save := Saved)).0
      else f == GatherStep(Absent, r).0
  {
    if Hits(CacheAfter(c, runs), r) { HitAgreesWithUncached(c, runs, r, identityOf, sizeOf); }
  }

  /** Whatever happens to the API, a run never fails, and says how it got its facts. */
  lemma ProvenanceIsHonest(c: Cache, runs: seq<Run>, r: Run)
    requires !c.Valid?
    ensures var f := GatherStep(CacheAfter(c, runs), r).0;
      && (f.source == EC2API <==> r.imds.Some? && (Hits(CacheAfter(c, runs), r) || r.api.Some?))
      && (f.source == LocalFallback <==> f.warnings in [[NoIMDS], [NoEC2API]])
      && (f.warnings == [NoIMDS] <==> r.imds.None?)
      && (f.warnings == [NoEC2API] <==> r.imds.Some? && !Hits(CacheAfter(c, runs), r) && r.api.None?)
      && (f.warnings == [NotCached] <==> r.imds.Some? && !Hits(CacheAfter(c, runs), r) && r.api.Some? && r.save != Saved)
      && (f.warnings == [] <==> r.imds.Some? && (Hits(CacheAfter(c, runs), r) || (r.api.Some? && r.save == Saved)))
      && f.distro == r.distro && f.kernel == r.kernel
  {
    if CacheAfter(c, runs).Valid? { NoDegradedEntry(c, runs); }
  }

  /** The family of an instance type: what precedes its first dot. */
  predicate FamilyOf(family: string, instanceType: string) {
    Free(family, Only('.')) && (instanceType == family || family + "." <= instanceType)
  }

  lemma {:induction false} FamilyIsBeforeDot(s: string)
    ensures FamilyOf(Family(s), s)
  {
    PiecesFree(s, Only('.'));
    if s != [] {
      if s[0] == '.' {
        assert [] + "." <= s;
      } else {
        FamilyIsBeforeDot(s[1..]);
        assert Family(s) == [s[0]] + Family(s[1..]);
        if s[1..] != Family(s[1..]) { assert Family(s) + "." == [s[0]] + (Family(s[1..]) + "."); }
      }
    }
  }

  /** What is known without the API: the local CPUs, memory, bandwidth and NVMe storage, and nothing else. */
  predicate LocalOnly(size: Sizing, l: Local) {
    && size.vcpus == l.vcpus && size.memMiB == l.memMiB && size.bandwidthGbps == l.bandwidthGbps
    && size.nvmeInstanceStore == l.nvmeInstanceStore
    && !size.enaSupport && size.maxENIs == 0 && size.ipv4PerENI == 0 && !size.bareMetal && size.hypervisor == ""
  }

  /** What each run reports, field by field, for each way its questions are answered. */
  lemma GatheredFacts(c: Cache, runs: seq<Run>, r: Run)
    requires !c.Valid?
    ensures var f, before := GatherStep(CacheAfter(c, runs), r).0, CacheAfter(c, runs);
      && (r.imds.None? ==>
            && f.identity.arch == r.local.arch && f.identity.instanceID == "" && f.identity.instanceType == ""
            && f.identity.region == "" && f.identity.zone == "" && f.family == "" && LocalOnly(f.size, r.local))
      && (r.imds.Some? && !Hits(before, r) ==> f.identity == r.imds.value && FamilyOf(f.family, r.imds.value.instanceType))
      && (r.imds.Some? && !Hits(before, r) && r.api.None? ==> LocalOnly(f.size, r.local))
      && (r.imds.Some? && !Hits(before, r) && r.api.Some? ==> f.size == r.api.value)
      && (r.imds.Some? && Hits(before, r) ==>
            && before.Valid? && f.identity.instanceID == r.imds.value.instanceID
            && f.identity == before.facts.identity && f.size == before.facts.size && f.family == before.facts.family
            && FamilyOf(f.family, f.identity.instanceType))
      && f.distro == r.distro && f.kernel == r.kernel
  {
    if r.imds.Some? { FamilyIsBeforeDot(r.imds.value.instanceType); }
    if r.imds.Some? && Hits(CacheAfter(c, runs), r) {
      EntryIsLastAnswer(c, runs);
      LastWriterWrote(c, runs);
      FamilyIsBeforeDot(runs[LastWriter(c, runs).value].imds.value.instanceType);
    }
  }

  /** What a run leaves in the cache: it writes it only when it got an answer from the API. */
  lemma CacheLeft(c: Cache, r: Run)
    ensures var c' := GatherStep(c, r).1; var asks := r.imds.Some? && !Hits(c, r) && r.api.Some?;
      && (!asks ==> c' == c)
      && (asks && (r.save == Saved || r.save == SavedButFailed) ==>
            c'.Valid? && c'.cachedAt == r.savedAt && c'.facts.identity == r.imds.value && c'.facts.size == r.api.value && c'.facts.source == EC2API)
      && (asks && r.save == Truncated ==> c' == Garbage)
      && (asks && r.save == NotWritten ==> c' == c)
  {}

  /** A cached answer is used exactly when there is one for this instance, it can be read, no refresh is asked for, and it
      is not older than a positive ttl. */
  lemma HitsIff(c: Cache, r: Run)
    ensures Hits(c, r) <==>
      && r.imds.Some? && !r.refresh && r.cacheReadable && c.Valid?
      && r.imds.value.instanceID != "" && c.facts.identity.instanceID == r.imds.value.instanceID
      && (r.ttl <= 0 || r.now - c.cachedAt <= r.ttl)
  {}

  /** Without fixed answers: once cached, an instance's facts are returned by every later run on it that can read them
      and neither refreshes nor has a ttl, whatever the API would say now. */
  lemma {:induction false} StaleUntilRefresh(c: Cache, runs: seq<Run>)
    requires c.Valid? && c.facts.identity.instanceID != ""
    requires forall j :: 0 <= j < |runs| ==>
      !runs[j].refresh && runs[j].cacheReadable && runs[j].ttl <= 0 && (runs[j].imds.Some? ==> runs[j].imds.value.instanceID == c.facts.identity.instanceID)
    ensures CacheAfter(c, runs) == c
    ensures forall j :: 0 <= j < |runs| && runs[j].imds.Some? ==>
      GatherStep(CacheAfter(c, runs[..j]), runs[j]).0 == c.facts.(distro := runs[j].distro, kernel := runs[j].kernel)
  {
    if runs != [] {
      var before := runs[..|runs| - 1];
      StaleUntilRefresh(c, before);
      forall j | 0 <= j < |runs| && runs[j].imds.Some?
        ensures GatherStep(CacheAfter(c, runs[..j]), runs[j]).0 == c.facts.(distro := runs[j].distro, kernel := runs[j].kernel)
      {
        if j < |before| { assert before[..j] == runs[..j]; }
      }
    }
  }
}
