/** The engine: filter the resources, check and apply each in order, and turn the results into an exit code. */
module Engine {
  import Sequences

  datatype Status = Unchanged | WouldChange | Changed | Failed | Skipped | RebootRequired {
    /** A live or pending mutation. */
    predicate IsChange() { this == Changed || this == WouldChange }
  }

  /** What `Check` returns: a status, and whether it also returned an error. */
  datatype Checked = Checked(status: Status, err: bool)

  /** What `Apply` leaves behind, and whether it returned without an error. */
  datatype Applied<+S> = Applied(state: S, ok: bool)

  /** A named unit of convergence over a host of type S. */
  datatype Resource<!S> = Resource(name: string, check: S -> Checked, apply: S -> Applied<S>)

  datatype Outcome = Outcome(name: string, status: Status)

  datatype Mode = ModeApply | ModeCheck

  // ---- one resource, one pass

  predicate Applies<S>(r: Resource<S>, s: S, mode: Mode) {
    mode == ModeApply && r.check(s) == Checked(WouldChange, false)
  }

  function StepState<S>(r: Resource<S>, s: S, mode: Mode): S {
    if Applies(r, s, mode) then r.apply(s).state else s
  }

  function StepOutcome<S>(r: Resource<S>, s: S, mode: Mode): Outcome {
    Outcome(r.name,
      if !Applies(r, s, mode) then r.check(s).status else if r.apply(s).ok then Changed else Failed)
  }

  function FinalState<S>(rs: seq<Resource<S>>, s: S, mode: Mode): S
    decreases |rs|
  {
    if rs == [] then s else FinalState(rs[1..], StepState(rs[0], s, mode), mode)
  }

  function Results<S>(rs: seq<Resource<S>>, s: S, mode: Mode): (results: seq<Outcome>)
    ensures |results| == |rs|
    decreases |rs|
  {
    if rs == [] then []
    else [StepOutcome(rs[0], s, mode)] + Results(rs[1..], StepState(rs[0], s, mode), mode)
  }

  class Node<S> {
    var host: S

    constructor (h: S)
      ensures host == h
    {
      host := h;
    }
  }

  method Run<S>(rs: seq<Resource<S>>, node: Node<S>, mode: Mode) returns (results: seq<Outcome>)
    modifies node
    ensures results == Results(rs, old(node.host), mode)
    ensures node.host == FinalState(rs, old(node.host), mode)
  {
    results := [];
    for i := 0 to |rs|
      invariant results + Results(rs[i..], node.host, mode) == Results(rs, old(node.host), mode)
      invariant FinalState(rs[i..], node.host, mode) == FinalState(rs, old(node.host), mode)
    {
      assert rs[i..][0] == rs[i] && rs[i..][1..] == rs[i + 1..];
      var outcome := RunOne(rs[i], node, mode);
      Sequences.Associate(results, [outcome], Results(rs[i + 1..], node.host, mode));
      results := results + [outcome];
    }
  }

  /** Check one resource and, in apply mode, converge the drift it reports. */
  method RunOne<S>(r: Resource<S>, node: Node<S>, mode: Mode) returns (outcome: Outcome)
    modifies node
    ensures outcome == StepOutcome(r, old(node.host), mode) && node.host == StepState(r, old(node.host), mode)
  {
    var res := r.check(node.host);
    if res.err { return Outcome(r.name, res.status); }
    var status := res.status;
    if mode == ModeApply && res.status == WouldChange {
      var applied := r.apply(node.host);
      node.host := applied.state;
      status := if applied.ok then Changed else Failed;
    }
    outcome := Outcome(r.name, status);
  }

  // ---- accounting for a whole run

  /** The host just before resource `i`. */
  function StateBefore<S>(rs: seq<Resource<S>>, s: S, mode: Mode, i: nat): S
    requires i <= |rs|
    decreases i
  {
    if i == 0 then s else StepState(rs[i - 1], StateBefore(rs, s, mode, i - 1), mode)
  }

  lemma {:induction false} StateBeforeTail<S>(rs: seq<Resource<S>>, s: S, mode: Mode, i: nat)
    requires i < |rs|
    ensures StateBefore(rs, s, mode, i + 1) == StateBefore(rs[1..], StepState(rs[0], s, mode), mode, i)
    decreases i
  {
    if i > 0 { StateBeforeTail(rs, s, mode, i - 1); }
  }

  lemma {:induction false} ResultAt<S>(rs: seq<Resource<S>>, s: S, mode: Mode, i: nat)
    requires i < |rs|
    ensures Results(rs, s, mode)[i] == StepOutcome(rs[i], StateBefore(rs, s, mode, i), mode)
    decreases |rs|
  {
    if i > 0 {
      var next := StepState(rs[0], s, mode);
      ResultAt(rs[1..], next, mode, i - 1);
      StateBeforeTail(rs, s, mode, i - 1);
    }
  }

  lemma {:induction false} LastState<S>(rs: seq<Resource<S>>, s: S, mode: Mode)
    ensures FinalState(rs, s, mode) == StateBefore(rs, s, mode, |rs|)
    decreases |rs|
  {
    if rs != [] {
      LastState(rs[1..], StepState(rs[0], s, mode), mode);
      StateBeforeTail(rs, s, mode, |rs| - 1);
    }
  }

  /** Every resource gets one result, in order, from the host its predecessors left; the last host is the run's. */
  lemma RunAccounting<S>(rs: seq<Resource<S>>, s: S, mode: Mode)
    ensures |Results(rs, s, mode)| == |rs|
    ensures forall i :: 0 <= i < |rs| ==> Results(rs, s, mode)[i] == StepOutcome(rs[i], StateBefore(rs, s, mode, i), mode)
    ensures FinalState(rs, s, mode) == StateBefore(rs, s, mode, |rs|)
  {
    forall i | 0 <= i < |rs| ensures Results(rs, s, mode)[i] == StepOutcome(rs[i], StateBefore(rs, s, mode, i), mode) {
      ResultAt(rs, s, mode, i);
    }
    LastState(rs, s, mode);
  }

  /** `Apply` is what moves the host, and only on an error-free would_change in apply mode. */
  lemma AppliedExactlyOnDrift<S>(rs: seq<Resource<S>>, s: S, mode: Mode, i: nat)
    requires i < |rs|
    ensures var before, after := StateBefore(rs, s, mode, i), StateBefore(rs, s, mode, i + 1);
      var drifted := rs[i].check(before) == Checked(WouldChange, false);
      && after == (if mode == ModeApply && drifted then rs[i].apply(before).state else before)
      && Results(rs, s, mode)[i] ==
           Outcome(rs[i].name,
             if mode == ModeApply && drifted then if rs[i].apply(before).ok then Changed else Failed
             else rs[i].check(before).status)
  {
    RunAccounting(rs, s, mode);
  }

  lemma {:induction false} CheckLeavesHost<S>(rs: seq<Resource<S>>, s: S)
    ensures FinalState(rs, s, ModeCheck) == s
    ensures forall i :: 0 <= i < |rs| ==> Results(rs, s, ModeCheck)[i] == Outcome(rs[i].name, rs[i].check(s).status)
    decreases |rs|
  {
    if rs != [] { CheckLeavesHost(rs[1..], s); }
  }

  /** An error from `Check` always comes with the status failed, and `Check` never reports a change as made. */
  ghost predicate Honest<S(!new)>(r: Resource<S>) {
    forall s :: (r.check(s).err ==> r.check(s).status == Failed) && r.check(s).status != Changed
  }

  ghost predicate AllHonest<S(!new)>(rs: seq<Resource<S>>) { forall r :: r in rs ==> Honest(r) }

  /** After a run in apply mode nothing is still pending. */
  lemma ApplyLeavesNothingPending<S(!new)>(rs: seq<Resource<S>>, s: S)
    requires AllHonest(rs)
    ensures forall i :: 0 <= i < |rs| ==> Results(rs, s, ModeApply)[i].status != WouldChange
  {
    RunAccounting(rs, s, ModeApply);
    forall i | 0 <= i < |rs| ensures Results(rs, s, ModeApply)[i].status != WouldChange {
      var before := StateBefore(rs, s, ModeApply, i);
      assert Honest(rs[i]);
    }
  }

  /** What every Apply of a list of resources keeps, every run over it keeps, in either mode. */
  lemma {:induction false} RunKeeps<S(!new)>(rs: seq<Resource<S>>, s: S, mode: Mode, inv: S -> bool)
    requires inv(s) && forall r, x :: r in rs && inv(x) && r.check(x) == Checked(WouldChange, false) ==> inv(r.apply(x).state)
    ensures inv(FinalState(rs, s, mode))
    decreases |rs|
  {
    if rs != [] {
      assert rs[0] in rs;
      RunKeeps(rs[1..], StepState(rs[0], s, mode), mode, inv);
    }
  }

  /** Where no Check fails and every Apply succeeds, no result is failed. */
  lemma {:induction false} SoundRun<S(!new)>(rs: seq<Resource<S>>, s: S, inv: S -> bool)
    requires inv(s)
    requires forall r, x :: r in rs && inv(x) ==>
      r.check(x).status != Failed && (r.check(x) == Checked(WouldChange, false) ==> r.apply(x).ok) && inv(r.apply(x).state)
    ensures NoneFailed(Results(rs, s, ModeApply)) && inv(FinalState(rs, s, ModeApply))
    decreases |rs|
  {
    if rs != [] {
      assert rs[0] in rs;
      SoundRun(rs[1..], StepState(rs[0], s, ModeApply), inv);
    }
  }

  function Times<S>(step: S -> S, s: S, n: nat): S
    decreases n
  {
    if n == 0 then s else Times(step, step(s), n - 1)
  }

  lemma {:induction false} TimesKeep<S(!new)>(step: S -> S, s: S, n: nat, inv: S -> bool)
    requires inv(s) && forall x :: inv(x) ==> inv(step(x))
    ensures inv(Times(step, s, n))
    decreases n
  {
    if n > 0 { TimesKeep(step, step(s), n - 1, inv); }
  }

  /** A run over two lists of resources is a run over the first, then over the second. */
  lemma {:induction false} RunConcat<S>(a: seq<Resource<S>>, b: seq<Resource<S>>, s: S, mode: Mode)
    ensures FinalState(a + b, s, mode) == FinalState(b, FinalState(a, s, mode), mode)
    ensures Results(a + b, s, mode) == Results(a, s, mode) + Results(b, FinalState(a, s, mode), mode)
    decreases |a|
  {
    if a == [] {
      assert a + b == b;
    } else {
      assert (a + b)[1..] == a[1..] + b;
      RunConcat(a[1..], b, StepState(a[0], s, mode), mode);
    }
  }

  /** The resource finds nothing to do. */
  predicate Quiet<S>(r: Resource<S>, s: S) {
    !r.check(s).err && r.check(s).status in {Unchanged, Skipped, RebootRequired}
  }

  predicate AllQuiet(results: seq<Outcome>) {
    forall i :: 0 <= i < |results| ==> results[i].status in {Unchanged, Skipped, RebootRequired}
  }

  lemma QuietExit(results: seq<Outcome>, mode: Mode)
    requires AllQuiet(results)
    ensures ExitCodeOf(results, mode) == 0
  {}

  /** Quiet resources leave the host alone, report nothing changed or pending, and make the run exit 0, in both modes. */
  lemma QuietRun<S>(rs: seq<Resource<S>>, s: S, mode: Mode)
    requires forall r :: r in rs ==> Quiet(r, s)
    ensures FinalState(rs, s, mode) == s && AllQuiet(Results(rs, s, mode)) && ExitCodeOf(Results(rs, s, mode), mode) == 0
  {
    SettledRun(rs, s, mode);
    forall i | 0 <= i < |rs| ensures Results(rs, s, mode)[i].status in {Unchanged, Skipped, RebootRequired} { assert Quiet(rs[i], s); }
    QuietExit(Results(rs, s, mode), mode);
  }

  predicate NoneFailed(results: seq<Outcome>) { forall i :: 0 <= i < |results| ==> results[i].status != Failed }

  // ---- resources that do not disturb each other

  /** When Check asks for a change and Apply succeeds, the resource is then quiet. */
  predicate Settles<S>(r: Resource<S>, s: S) {
    r.check(s) == Checked(WouldChange, false) && r.apply(s).ok ==> Quiet(r, r.apply(s).state)
  }

  /** Applying `q`, whether it succeeds or not, leaves `r` quiet if it was. */
  ghost predicate Respects<S(!new)>(q: Resource<S>, r: Resource<S>) {
    forall s :: Quiet(r, s) && q.check(s) == Checked(WouldChange, false) ==> Quiet(r, q.apply(s).state)
  }

  ghost predicate AllRespect<S(!new)>(qs: seq<Resource<S>>, rs: seq<Resource<S>>) {
    forall q, r :: q in qs && r in rs ==> Respects(q, r)
  }

  /** Every resource of the list respects the ones before it. */
  ghost predicate Ordered<S(!new)>(rs: seq<Resource<S>>) {
    forall i, j :: 0 <= i < j < |rs| ==> Respects(rs[j], rs[i])
  }

  /** `inv` holds, every Apply keeps it, and under it every resource settles. */
  ghost predicate SettlesUnder<S(!new)>(rs: seq<Resource<S>>, inv: S -> bool) {
    && (forall r, x :: r in rs && inv(x) && r.check(x) == Checked(WouldChange, false) ==> inv(r.apply(x).state))
    && (forall r, x :: r in rs && inv(x) ==> Settles(r, x))
  }

  lemma OrderedConcat<S(!new)>(a: seq<Resource<S>>, b: seq<Resource<S>>)
    requires Ordered(a) && Ordered(b) && AllRespect(b, a)
    ensures Ordered(a + b)
  {
    var rs := a + b;
    forall i, j | 0 <= i < j < |rs| ensures Respects(rs[j], rs[i]) {
      if i < |a| <= j { assert rs[j] in b && rs[i] in a; }
      if |a| <= i { assert rs[i] == b[i - |a|] && rs[j] == b[j - |a|]; }
    }
  }

  lemma RespectConcat<S(!new)>(a: seq<Resource<S>>, b: seq<Resource<S>>, rs: seq<Resource<S>>)
    ensures AllRespect(a + b, rs) <==> AllRespect(a, rs) && AllRespect(b, rs)
    ensures AllRespect(rs, a + b) <==> AllRespect(rs, a) && AllRespect(rs, b)
  {
    assert forall r :: r in a + b <==> r in a || r in b;
  }

  lemma UnfailedIsQuiet<S(!new)>(r: Resource<S>, s: S)
    requires Honest(r) && Settles(r, s) && StepOutcome(r, s, ModeApply).status != Failed
    ensures Quiet(r, StepState(r, s, ModeApply))
  {
    assert r.check(s).err ==> r.check(s).status == Failed;
  }

  lemma RespectfulRun<S(!new)>(r: Resource<S>, rs: seq<Resource<S>>, s: S)
    requires Quiet(r, s) && AllRespect(rs, [r])
    ensures Quiet(r, FinalState(rs, s, ModeApply))
  {
    var inv := (x: S) => Quiet(r, x);
    forall q, x | q in rs && inv(x) && q.check(x) == Checked(WouldChange, false) ensures inv(q.apply(x).state) {
      assert r in [r] && Respects(q, r);
    }
    RunKeeps(rs, s, ModeApply, inv);
  }

  /** A failure does not spread: after an apply run every resource that was not reported as failed has nothing to do,
      whatever happened to the others. */
  lemma {:induction false} FailuresAreIsolated<S(!new)>(rs: seq<Resource<S>>, s: S, inv: S -> bool)
    requires AllHonest(rs) && Ordered(rs) && inv(s) && SettlesUnder(rs, inv)
    ensures inv(FinalState(rs, s, ModeApply))
    ensures forall i :: 0 <= i < |rs| && Results(rs, s, ModeApply)[i].status != Failed ==> Quiet(rs[i], FinalState(rs, s, ModeApply))
    decreases |rs|
  {
    if rs != [] {
      var r, rest, next := rs[0], rs[1..], StepState(rs[0], s, ModeApply);
      assert r in rs && rs == [r] + rest;
      OrderedTail(rs);
      FailuresAreIsolated(rest, next, inv);
      if StepOutcome(r, s, ModeApply).status != Failed {
        UnfailedIsQuiet(r, s);
        FirstRespected(r, rest);
        RespectfulRun(r, rest, next);
      }
      assert forall i :: 1 <= i < |rs| ==> Results(rs, s, ModeApply)[i] == Results(rest, next, ModeApply)[i - 1];
    }
  }

  lemma OrderedTail<S(!new)>(rs: seq<Resource<S>>)
    requires rs != [] && Ordered(rs)
    ensures Ordered(rs[1..])
  {
    forall i, j | 0 <= i < j < |rs[1..]| ensures Respects(rs[1..][j], rs[1..][i]) {
      assert rs[1..][j] == rs[j + 1] && rs[1..][i] == rs[i + 1];
    }
  }

  lemma FirstRespected<S(!new)>(r: Resource<S>, rest: seq<Resource<S>>)
    requires Ordered([r] + rest)
    ensures AllRespect(rest, [r])
  {
    var rs := [r] + rest;
    forall q | q in rest ensures Respects(q, r) {
      var j :| 0 <= j < |rest| && rest[j] == q;
      assert rs[j + 1] == q && rs[0] == r;
    }
  }

  /** After an apply run of `first + rest`, each of `rest` that was not reported as failed has nothing to do. */
  ghost predicate UnfailedAreQuiet<S>(first: seq<Resource<S>>, rest: seq<Resource<S>>, s: S) {
    forall i :: 0 <= i < |rest| && Results(first + rest, s, ModeApply)[|first| + i].status != Failed ==>
      Quiet(rest[i], FinalState(first + rest, s, ModeApply))
  }

  /** The same with one resource in front that the others need not respect: what is said of them. */
  lemma RestIsolated<S(!new)>(first: seq<Resource<S>>, rest: seq<Resource<S>>, s: S, inv: S -> bool)
    requires AllHonest(rest) && Ordered(rest) && inv(s) && SettlesUnder(first, inv) && SettlesUnder(rest, inv)
    ensures inv(FinalState(first + rest, s, ModeApply))
    ensures UnfailedAreQuiet(first, rest, s)
  {
    var next := FinalState(first, s, ModeApply);
    RunKeeps(first, s, ModeApply, inv);
    FailuresAreIsolated(rest, next, inv);
    RunConcat(first, rest, s, ModeApply);
  }

  lemma RestQuiet<S(!new)>(first: seq<Resource<S>>, rest: seq<Resource<S>>, s: S, inv: S -> bool)
    requires AllHonest(rest) && Ordered(rest) && inv(s) && SettlesUnder(first, inv) && SettlesUnder(rest, inv)
    requires NoneFailed(Results(first + rest, s, ModeApply))
    ensures inv(FinalState(first + rest, s, ModeApply))
    ensures forall r :: r in rest ==> Quiet(r, FinalState(first + rest, s, ModeApply))
  {
    RestIsolated(first, rest, s, inv);
    forall r | r in rest ensures Quiet(r, FinalState(first + rest, s, ModeApply)) {
      var i :| 0 <= i < |rest| && rest[i] == r;
      assert Results(first + rest, s, ModeApply)[|first| + i].status != Failed;
    }
  }

  /** Once the others are quiet, a run is the step of the one in front, and it reports nothing iff that one is quiet. */
  lemma OnlyFirstMoves<S(!new)>(first: seq<Resource<S>>, rest: seq<Resource<S>>, s: S)
    requires |first| <= 1 && AllHonest(first) && AllRespect(first, rest) && forall r :: r in rest ==> Quiet(r, s)
    ensures FinalState(first + rest, s, ModeApply) == FinalState(first, s, ModeApply)
    ensures forall r :: r in rest ==> Quiet(r, FinalState(first, s, ModeApply))
    ensures AllQuiet(Results(first + rest, s, ModeApply)) <==> forall r :: r in first ==> Quiet(r, s)
  {
    var next := FinalState(first, s, ModeApply);
    RunConcat(first, rest, s, ModeApply);
    forall r | r in rest ensures Quiet(r, next) {
      assert r in [r];
      forall q, x | q in first && x in [r] ensures Respects(q, x) {}
      RespectfulRun(r, first, s);
    }
    QuietRun(rest, next, ModeApply);
    AllQuietConcat(Results(first, s, ModeApply), Results(rest, next, ModeApply));
    FirstReports(first, s);
  }

  lemma AllQuietConcat(a: seq<Outcome>, b: seq<Outcome>)
    ensures AllQuiet(a + b) <==> AllQuiet(a) && AllQuiet(b)
    ensures NoneFailed(a + b) <==> NoneFailed(a) && NoneFailed(b)
  {
    forall i | 0 <= i < |b| ensures (a + b)[|a| + i] == b[i] {}
    forall i | 0 <= i < |a| ensures (a + b)[i] == a[i] {}
  }

  lemma QuietReport<S(!new)>(r: Resource<S>, s: S)
    requires Honest(r)
    ensures AllQuiet([StepOutcome(r, s, ModeApply)]) <==> Quiet(r, s)
  {
    assert [StepOutcome(r, s, ModeApply)][0] == StepOutcome(r, s, ModeApply);
    assert r.check(s).err ==> r.check(s).status == Failed;
    assert r.check(s).status != Changed;
  }

  lemma FirstReports<S(!new)>(first: seq<Resource<S>>, s: S)
    requires |first| <= 1 && AllHonest(first)
    ensures AllQuiet(Results(first, s, ModeApply)) <==> forall r :: r in first ==> Quiet(r, s)
  {
    if first != [] {
      var r := first[0];
      assert r in first && first == [r] && first[1..] == [];
      assert Results(first, s, ModeApply) == [StepOutcome(r, s, ModeApply)];
      QuietReport(r, s);
    }
  }

  /** Two apply runs without a failure leave every resource quiet. */
  lemma TwoRunsSettle<S(!new)>(first: seq<Resource<S>>, rest: seq<Resource<S>>, s: S, inv: S -> bool)
    requires |first| <= 1 && AllHonest(first + rest) && Ordered(rest) && AllRespect(first, rest)
    requires inv(s) && SettlesUnder(first, inv) && SettlesUnder(rest, inv)
    requires var rs := first + rest;
      NoneFailed(Results(rs, s, ModeApply)) && NoneFailed(Results(rs, FinalState(rs, s, ModeApply), ModeApply))
    ensures var rs := first + rest;
      forall r :: r in rs ==> Quiet(r, FinalState(rs, FinalState(rs, s, ModeApply), ModeApply))
    ensures var rs := first + rest; inv(FinalState(rs, FinalState(rs, s, ModeApply), ModeApply))
  {
    var once := FinalState(first + rest, s, ModeApply);
    assert AllHonest(first) && AllHonest(rest);
    RestQuiet(first, rest, s, inv);
    OnlyFirstMoves(first, rest, once);
    RunConcat(first, rest, once, ModeApply);
    AllQuietConcat(Results(first, once, ModeApply), Results(rest, FinalState(first, once, ModeApply), ModeApply));
    FirstSettles(first, once, inv);
    RunKeeps(first, once, ModeApply, inv);
  }

  lemma FirstSettles<S(!new)>(first: seq<Resource<S>>, s: S, inv: S -> bool)
    requires |first| <= 1 && AllHonest(first) && inv(s) && SettlesUnder(first, inv) && NoneFailed(Results(first, s, ModeApply))
    ensures forall r :: r in first ==> Quiet(r, FinalState(first, s, ModeApply))
  {
    if first != [] {
      assert first[0] in first && first[1..] == [];
      assert Results(first, s, ModeApply)[0] == StepOutcome(first[0], s, ModeApply);
      UnfailedIsQuiet(first[0], s);
    }
  }

  // ---- resources that find nothing to do

  /** Resources that all find nothing to do leave the host alone, in either mode. */
  lemma {:induction false} SettledRun<S>(rs: seq<Resource<S>>, s: S, mode: Mode)
    requires forall r :: r in rs ==> !r.check(s).err && r.check(s).status != WouldChange
    ensures FinalState(rs, s, mode) == s
    ensures forall i :: 0 <= i < |rs| ==> Results(rs, s, mode)[i] == Outcome(rs[i].name, rs[i].check(s).status)
    decreases |rs|
  {
    if rs != [] {
      assert rs[0] in rs;
      SettledRun(rs[1..], s, mode);
    }
  }

  // ---- resources over one part of a larger host

  datatype Lens<!T, !S> = Lens(get: T -> S, put: (T, S) -> T)

  ghost predicate LawfulLens<T(!new), S(!new)>(l: Lens<T, S>) {
    && (forall t, s :: l.get(l.put(t, s)) == s)
    && (forall t :: l.put(t, l.get(t)) == t)
    && (forall t, a, b :: l.put(l.put(t, a), b) == l.put(t, b))
  }

  function Lift<T, S>(l: Lens<T, S>, r: Resource<S>): Resource<T> {
    Resource(r.name, (t: T) => r.check(l.get(t)), (t: T) => var a := r.apply(l.get(t)); Applied(l.put(t, a.state), a.ok))
  }

  function LiftAll<T, S>(l: Lens<T, S>, rs: seq<Resource<S>>): seq<Resource<T>> {
    if rs == [] then [] else [Lift(l, rs[0])] + LiftAll(l, rs[1..])
  }

  /** A run of lifted resources is the run on the part, put back. */
  lemma {:induction false} LiftedRun<T(!new), S(!new)>(l: Lens<T, S>, rs: seq<Resource<S>>, t: T, mode: Mode)
    requires LawfulLens(l)
    ensures FinalState(LiftAll(l, rs), t, mode) == l.put(t, FinalState(rs, l.get(t), mode))
    ensures Results(LiftAll(l, rs), t, mode) == Results(rs, l.get(t), mode)
    decreases |rs|
  {
    if rs != [] {
      LiftedStep(l, rs[0], t, mode);
      var next := StepState(rs[0], l.get(t), mode);
      LiftedRun(l, rs[1..], l.put(t, next), mode);
      assert LiftAll(l, rs)[1..] == LiftAll(l, rs[1..]);
    }
  }

  lemma LiftedStep<T(!new), S(!new)>(l: Lens<T, S>, r: Resource<S>, t: T, mode: Mode)
    requires LawfulLens(l)
    ensures StepState(Lift(l, r), t, mode) == l.put(t, StepState(r, l.get(t), mode))
    ensures StepOutcome(Lift(l, r), t, mode) == StepOutcome(r, l.get(t), mode)
  {}

  lemma {:induction false} LiftedHonest<T(!new), S(!new)>(l: Lens<T, S>, rs: seq<Resource<S>>)
    requires AllHonest(rs)
    ensures AllHonest(LiftAll(l, rs))
    decreases |rs|
  {
    if rs != [] {
      assert rs[0] in rs;
      LiftedHonest(l, rs[1..]);
      assert Honest(Lift(l, rs[0])) by {
        forall t ensures (Lift(l, rs[0]).check(t).err ==> Lift(l, rs[0]).check(t).status == Failed) && Lift(l, rs[0]).check(t).status != Changed {
          assert Honest(rs[0]);
        }
      }
    }
  }

  lemma {:induction false} LiftedAt<T, S>(l: Lens<T, S>, rs: seq<Resource<S>>)
    ensures |LiftAll(l, rs)| == |rs| && forall i :: 0 <= i < |rs| ==> LiftAll(l, rs)[i] == Lift(l, rs[i])
    decreases |rs|
  {
    if rs != [] { LiftedAt(l, rs[1..]); }
  }

  lemma LiftedMember<T, S>(l: Lens<T, S>, rs: seq<Resource<S>>, x: Resource<T>) returns (r: Resource<S>)
    requires x in LiftAll(l, rs)
    ensures r in rs && x == Lift(l, r)
  {
    LiftedAt(l, rs);
    var i :| 0 <= i < |LiftAll(l, rs)| && LiftAll(l, rs)[i] == x;
    r := rs[i];
  }

  lemma LiftedQuiet<T(!new), S(!new)>(l: Lens<T, S>, rs: seq<Resource<S>>, t: T)
    ensures (forall x :: x in LiftAll(l, rs) ==> Quiet(x, t)) <==> forall r :: r in rs ==> Quiet(r, l.get(t))
  {
    LiftedAt(l, rs);
    if forall x :: x in LiftAll(l, rs) ==> Quiet(x, t) {
      forall r | r in rs ensures Quiet(r, l.get(t)) {
        var i :| 0 <= i < |rs| && rs[i] == r;
        assert LiftAll(l, rs)[i] in LiftAll(l, rs) && Quiet(Lift(l, r), t);
      }
    } else {
      var x :| x in LiftAll(l, rs) && !Quiet(x, t);
      var r := LiftedMember(l, rs, x);
      assert !Quiet(r, l.get(t));
    }
  }

  lemma LiftConcat<T, S>(l: Lens<T, S>, a: seq<Resource<S>>, b: seq<Resource<S>>)
    ensures LiftAll(l, a + b) == LiftAll(l, a) + LiftAll(l, b)
  {
    LiftedAt(l, a);
    LiftedAt(l, b);
    LiftedAt(l, a + b);
  }

  lemma LiftedRespects<T(!new), S(!new)>(l: Lens<T, S>, q: Resource<S>, r: Resource<S>)
    requires LawfulLens(l) && Respects(q, r)
    ensures Respects(Lift(l, q), Lift(l, r))
  {}

  lemma LiftedOrdered<T(!new), S(!new)>(l: Lens<T, S>, rs: seq<Resource<S>>)
    requires LawfulLens(l) && Ordered(rs)
    ensures Ordered(LiftAll(l, rs))
  {
    var lifted := LiftAll(l, rs);
    LiftedAt(l, rs);
    forall i, j | 0 <= i < j < |lifted| ensures Respects(lifted[j], lifted[i]) { LiftedRespects(l, rs[j], rs[i]); }
  }

  lemma LiftedAllRespect<T(!new), S(!new)>(l: Lens<T, S>, qs: seq<Resource<S>>, rs: seq<Resource<S>>)
    requires LawfulLens(l) && AllRespect(qs, rs)
    ensures AllRespect(LiftAll(l, qs), LiftAll(l, rs))
  {
    forall q, r | q in LiftAll(l, qs) && r in LiftAll(l, rs) ensures Respects(q, r) {
      var q0 := LiftedMember(l, qs, q);
      var r0 := LiftedMember(l, rs, r);
      LiftedRespects(l, q0, r0);
    }
  }

  /** Writing one part does not show in the other. */
  ghost predicate Separate<T(!new), A(!new), B(!new)>(a: Lens<T, A>, b: Lens<T, B>) { forall t, s :: b.get(a.put(t, s)) == b.get(t) }

  lemma SeparateRespect<T(!new), A(!new), B(!new)>(a: Lens<T, A>, b: Lens<T, B>, qs: seq<Resource<A>>, rs: seq<Resource<B>>)
    requires Separate(a, b)
    ensures AllRespect(LiftAll(a, qs), LiftAll(b, rs))
  {
    forall q, r | q in LiftAll(a, qs) && r in LiftAll(b, rs) ensures Respects(q, r) {
      var q0 := LiftedMember(a, qs, q);
      var r0 := LiftedMember(b, rs, r);
      OtherPartQuiet(a, b, q0, r0);
    }
  }

  lemma OtherPartQuiet<T(!new), A(!new), B(!new)>(a: Lens<T, A>, b: Lens<T, B>, q: Resource<A>, r: Resource<B>)
    requires Separate(a, b)
    ensures Respects(Lift(a, q), Lift(b, r))
  {}

  lemma LiftedSettles<T(!new), S(!new)>(l: Lens<T, S>, r: Resource<S>, t: T)
    requires LawfulLens(l) && Settles(r, l.get(t))
    ensures Settles(Lift(l, r), t)
  {}

  /** Under an invariant of the whole that every lifted Apply keeps, and that makes the part settle. */
  lemma LiftedSettlesUnder<T(!new), S(!new)>(l: Lens<T, S>, rs: seq<Resource<S>>, inv: T -> bool)
    requires LawfulLens(l)
    requires forall r, t :: r in rs && inv(t) ==> Settles(r, l.get(t)) && inv(l.put(t, r.apply(l.get(t)).state))
    ensures SettlesUnder(LiftAll(l, rs), inv)
  {
    forall x, t | x in LiftAll(l, rs) && inv(t) ensures Settles(x, t) && inv(x.apply(t).state) {
      var r := LiftedMember(l, rs, x);
      LiftedSettles(l, r, t);
    }
  }

  lemma SettlesUnderConcat<S(!new)>(a: seq<Resource<S>>, b: seq<Resource<S>>, inv: S -> bool)
    requires SettlesUnder(a, inv) && SettlesUnder(b, inv)
    ensures SettlesUnder(a + b, inv)
  {
    assert forall r :: r in a + b <==> r in a || r in b;
  }

  // ---- exit code

  method ExitCode(results: seq<Outcome>, mode: Mode) returns (code: int)
    ensures code == ExitCodeOf(results, mode)
  {
    var failed, changed := false, false;
    for i := 0 to |results|
      invariant failed <==> exists k :: 0 <= k < i && results[k].status == Failed
      invariant changed <==> exists k :: 0 <= k < i && results[k].status.IsChange()
    {
      if results[i].status == Failed { failed := true; }
      if results[i].status.IsChange() { changed := true; }
    }
    if failed { return 1; }
    if mode == ModeCheck && changed { return 2; }
    return 0;
  }

  predicate AnyFailed(results: seq<Outcome>) { exists k :: 0 <= k < |results| && results[k].status == Failed }

  predicate AnyChange(results: seq<Outcome>) { exists k :: 0 <= k < |results| && results[k].status.IsChange() }

  function ExitCodeOf(results: seq<Outcome>, mode: Mode): int {
    if AnyFailed(results) then 1 else if mode == ModeCheck && AnyChange(results) then 2 else 0
  }

  /** The convention said of runs: 1 iff something failed; 2 iff a check found drift and nothing failed; a run never
      reports 2 in apply mode, and in check mode 2 always means an error-free pending change. */
  lemma ExitCodeMeans<S(!new)>(rs: seq<Resource<S>>, s: S, mode: Mode)
    requires AllHonest(rs)
    ensures var code := ExitCodeOf(Results(rs, s, mode), mode);
      && (code == 1 <==> exists i :: 0 <= i < |rs| && Results(rs, s, mode)[i].status == Failed)
      && (code == 2 <==> (mode == ModeCheck
            && (exists i :: 0 <= i < |rs| && rs[i].check(s) == Checked(WouldChange, false))
            && (forall i :: 0 <= i < |rs| ==> rs[i].check(s).status != Failed)))
      && code in {0, 1, 2}
  {
    RunAccounting(rs, s, mode);
    CheckLeavesHost(rs, s);
    var results := Results(rs, s, mode);
    if mode == ModeCheck {
      forall i | 0 <= i < |rs|
        ensures results[i].status == Failed <==> rs[i].check(s).status == Failed
        ensures results[i].status.IsChange() <==> rs[i].check(s) == Checked(WouldChange, false)
      {
        assert Honest(rs[i]);
      }
    }
  }

  // ---- filtering

  /** Exclusion wins over inclusion; an empty `only` includes everything. */
  predicate Selected(name: string, disabled: seq<string>, skip: seq<string>, only: seq<string>) {
    name !in disabled && name !in skip && (only == [] || name in only)
  }

  function FilterSpec<S>(all: seq<Resource<S>>, disabled: seq<string>, skip: seq<string>, only: seq<string>): seq<Resource<S>> {
    if all == [] then []
    else
      (if Selected(all[0].name, disabled, skip, only) then [all[0]] else []) + FilterSpec(all[1..], disabled, skip, only)
  }

  method FilterResources<S>(all: seq<Resource<S>>, disabled: seq<string>, skip: seq<string>, only: seq<string>)
    returns (filtered: seq<Resource<S>>)
    ensures filtered == FilterSpec(all, disabled, skip, only)
  {
    var excluded := NameSet(disabled);
    var skipped := NameSet(skip);
    excluded := excluded + skipped;
    var included := NameSet(only);
    filtered := [];
    for i := 0 to |all|
      invariant filtered == FilterSpec(all[..i], disabled, skip, only)
    {
      var r := all[i];
      FilterStep(all, i, disabled, skip, only);
      var keep := Passes(r.name, excluded, included, disabled, skip, only);
      if keep { filtered := filtered + [r]; }
    }
    assert all[..|all|] == all;
  }

  method Passes(name: string, excluded: set<string>, included: set<string>, ghost disabled: seq<string>, ghost skip: seq<string>, only: seq<string>)
    returns (keep: bool)
    requires name in excluded <==> name in disabled || name in skip
    requires name in included <==> name in only
    ensures keep == Selected(name, disabled, skip, only)
  {
    if name in excluded { return false; }
    if |only| > 0 && name !in included { return false; }
    keep := true;
  }

  lemma FilterStep<S>(all: seq<Resource<S>>, i: nat, disabled: seq<string>, skip: seq<string>, only: seq<string>)
    requires i < |all|
    ensures FilterSpec(all[..i + 1], disabled, skip, only)
      == if Selected(all[i].name, disabled, skip, only) then FilterSpec(all[..i], disabled, skip, only) + [all[i]]
         else FilterSpec(all[..i], disabled, skip, only)
  {
    assert all[..i + 1] == all[..i] + [all[i]];
    FilterConcat(all[..i], [all[i]], disabled, skip, only);
    assert [all[i]][1..] == [];
  }

  method NameSet(names: seq<string>) returns (all: set<string>)
    ensures forall name :: name in all <==> name in names
  {
    all := {};
    for i := 0 to |names|
      invariant forall name :: name in all <==> name in names[..i]
    {
      all := all + {names[i]};
    }
  }

  /** The positions, from `i` on, of the selected resources. */
  function KeptFrom<S>(all: seq<Resource<S>>, i: nat, disabled: seq<string>, skip: seq<string>, only: seq<string>): seq<int>
    requires i <= |all|
    decreases |all| - i
  {
    if i == |all| then []
    else (if Selected(all[i].name, disabled, skip, only) then [i] else []) + KeptFrom(all, i + 1, disabled, skip, only)
  }

  lemma {:induction false} KeptMembers<S>(all: seq<Resource<S>>, i: nat, disabled: seq<string>, skip: seq<string>, only: seq<string>)
    requires i <= |all|
    ensures var kept := KeptFrom(all, i, disabled, skip, only);
      && (forall k :: 0 <= k < |kept| ==> i <= kept[k] < |all|)
      && (forall p: int :: p in kept <==> i <= p < |all| && Selected(all[p].name, disabled, skip, only))
    decreases |all| - i
  {
    if i < |all| { KeptMembers(all, i + 1, disabled, skip, only); }
  }

  lemma {:induction false} KeptAscending<S>(all: seq<Resource<S>>, i: nat, disabled: seq<string>, skip: seq<string>, only: seq<string>)
    requires i <= |all|
    ensures var kept := KeptFrom(all, i, disabled, skip, only);
      forall a, b :: 0 <= a < b < |kept| ==> kept[a] < kept[b]
    decreases |all| - i
  {
    if i < |all| {
      var rest := KeptFrom(all, i + 1, disabled, skip, only);
      KeptAscending(all, i + 1, disabled, skip, only);
      KeptMembers(all, i + 1, disabled, skip, only);
      if Selected(all[i].name, disabled, skip, only) {
        var kept := [i] + rest;
        forall a, b | 0 <= a < b < |kept| ensures kept[a] < kept[b] { assert kept[b] == rest[b - 1]; }
      }
    }
  }

  lemma {:induction false} KeptAreFiltered<S>(all: seq<Resource<S>>, i: nat, disabled: seq<string>, skip: seq<string>, only: seq<string>)
    requires i <= |all|
    ensures var kept, filtered := KeptFrom(all, i, disabled, skip, only), FilterSpec(all[i..], disabled, skip, only);
      && |filtered| == |kept|
      && forall k :: 0 <= k < |kept| ==> 0 <= kept[k] < |all| && filtered[k] == all[kept[k]]
    decreases |all| - i
  {
    if i < |all| {
      KeptAreFiltered(all, i + 1, disabled, skip, only);
      assert all[i..][0] == all[i] && all[i..][1..] == all[i + 1..];
    }
  }

  /** Filtering keeps exactly the resources that are neither disabled nor skipped and, when only some are asked for, are
      among those; in their original order. */
  lemma FilterIsSublist<S>(all: seq<Resource<S>>, disabled: seq<string>, skip: seq<string>, only: seq<string>)
    ensures var kept, filtered := KeptFrom(all, 0, disabled, skip, only), FilterSpec(all, disabled, skip, only);
      && |kept| == |filtered|
      && (forall a, b :: 0 <= a < b < |kept| ==> kept[a] < kept[b])
      && (forall p: int :: p in kept <==>
            && 0 <= p < |all| && all[p].name !in disabled && all[p].name !in skip
            && (only == [] || all[p].name in only))
      && (forall k :: 0 <= k < |kept| ==> 0 <= kept[k] < |all| && filtered[k] == all[kept[k]])
  {
    KeptMembers(all, 0, disabled, skip, only);
    KeptAscending(all, 0, disabled, skip, only);
    KeptAreFiltered(all, 0, disabled, skip, only);
    assert all[0..] == all;
  }

  /** The same of membership: exclusion beats inclusion. */
  lemma {:induction false} InFiltered<S(!new)>(all: seq<Resource<S>>, disabled: seq<string>, skip: seq<string>, only: seq<string>, r: Resource<S>)
    ensures r in FilterSpec(all, disabled, skip, only) <==>
      r in all && r.name !in disabled && r.name !in skip && (only == [] || r.name in only)
    decreases |all|
  {
    if all != [] {
      InFiltered(all[1..], disabled, skip, only, r);
      assert r in all <==> r == all[0] || r in all[1..];
    }
  }

  /** A filtered run has no result for a disabled or skipped name, nor, when only some are asked for, for any other. */
  lemma FilteredResults<S(!new)>(all: seq<Resource<S>>, disabled: seq<string>, skip: seq<string>, only: seq<string>, s: S, mode: Mode)
    ensures forall o :: o in Results(FilterSpec(all, disabled, skip, only), s, mode) ==>
      o.name !in disabled && o.name !in skip && (only == [] || o.name in only)
  {
    var rs := FilterSpec(all, disabled, skip, only);
    RunAccounting(rs, s, mode);
    forall o | o in Results(rs, s, mode) ensures o.name !in disabled && o.name !in skip && (only == [] || o.name in only) {
      var i :| 0 <= i < |rs| && Results(rs, s, mode)[i] == o;
      assert rs[i] in rs && o.name == rs[i].name;
      InFiltered(all, disabled, skip, only, rs[i]);
    }
  }

  lemma {:induction false} FilterConcat<S>(a: seq<Resource<S>>, b: seq<Resource<S>>, disabled: seq<string>, skip: seq<string>, only: seq<string>)
    ensures FilterSpec(a + b, disabled, skip, only) == FilterSpec(a, disabled, skip, only) + FilterSpec(b, disabled, skip, only)
    decreases |a|
  {
    if a == [] {
      assert a + b == b;
    } else {
      assert (a + b)[0] == a[0] && (a + b)[1..] == a[1..] + b;
      FilterConcat(a[1..], b, disabled, skip, only);
    }
  }

  lemma {:induction false} FilterLifted<T, S>(l: Lens<T, S>, rs: seq<Resource<S>>, disabled: seq<string>, skip: seq<string>, only: seq<string>)
    ensures FilterSpec(LiftAll(l, rs), disabled, skip, only) == LiftAll(l, FilterSpec(rs, disabled, skip, only))
    decreases |rs|
  {
    if rs != [] {
      FilterLifted(l, rs[1..], disabled, skip, only);
      assert LiftAll(l, rs)[1..] == LiftAll(l, rs[1..]);
      var rest := FilterSpec(rs[1..], disabled, skip, only);
      assert ([rs[0]] + rest)[1..] == rest && [] + rest == rest;
    }
  }
}
