/** The RT control files of one pod and its container, and the code of the node
    actuator that writes them, one file operation at a time. */
module CgroupFiles {
  import opened Wrappers

  // ---- Control files -------------------------------------------------------

  /** The `core` argument of a request. `Index` is text that parses as one integer;
      `Span` is a range such as "0-3", which does not. */
  datatype Core = Index(k: int) | Span(lo: nat, hi: nat) {
    predicate Touches(i: int) {
      match this
      case Index(k) => i == k
      case Span(lo, hi) => lo <= i <= hi
    }

    predicate Fits(slots: nat) {
      match this
      case Index(k) => 0 <= k < slots
      case Span(lo, hi) => lo <= hi < slots
    }
  }

  datatype Side = Container | Pod

  datatype File = PeriodFile | RuntimeFile | MultiRuntimeFile | CpusetFile

  /** The contents of one cgroup directory. A negative runtime means unlimited.
      `cpuset` is None for text that is neither one index nor one range. */
  datatype Group = Group(period: int, runtime: int, multi: seq<int>, cpuset: Option<Core>)

  datatype Pair = Pair(container: Group, pod: Group) {
    function At(side: Side): Group {
      if side.Container? then container else pod
    }

    function With(side: Side, g: Group): Pair {
      if side.Container? then this.(container := g) else this.(pod := g)
    }
  }

  /** What one write puts into one file. */
  datatype Payload = Period(value: int) | Runtime(value: int) | Multi(core: Core, value: int) | Cpuset(core: Core)

  datatype Step = Step(side: Side, payload: Payload)

  function Store(g: Group, p: Payload): Group {
    match p
    case Period(v) => g.(period := v)
    case Runtime(v) => g.(runtime := v)
    case Multi(c, v) =>
      g.(multi := seq(|g.multi|, i requires 0 <= i < |g.multi| => if c.Touches(i) then v else g.multi[i]))
    case Cpuset(c) => g.(cpuset := Some(c))
  }

  function Exec(s: Pair, st: Step): Pair {
    s.With(st.side, Store(s.At(st.side), st.payload))
  }

  /** The kernel refuses a per-core write outside the slots it has; it may refuse any other write too. */
  predicate Admissible(g: Group, p: Payload) {
    p.Multi? ==> p.core.Fits(|g.multi|)
  }

  // ---- Requests and the direction flags ------------------------------------

  datatype Request = Request(period: int, runtime: int, core: Option<Core>, onlyRuntime: bool) {
    /** Accepted by the HTTP handler. */
    predicate Valid() {
      0 < period && runtime <= period
    }

    /** The number a normal-mode write puts into the runtime files. */
    function Clamped(): int {
      Max(runtime, 0)
    }

    /** The number written in either mode. */
    function Value(): int {
      if onlyRuntime then runtime else Clamped()
    }
  }

  datatype Flags = Flags(runtime: bool, period: bool, multi: bool) {
    predicate Any() {
      runtime || period || multi
    }
  }

  predicate IsDecrease(oldVal: int, newVal: int) {
    newVal < oldVal
  }

  predicate IsRuntimeDecrease(oldRuntime: int, newRuntime: int) {
    if newRuntime < 0 then false
    else if oldRuntime < 0 then true
    else newRuntime < oldRuntime
  }

  /** Limit `a` is no looser than limit `b`, where every negative limit is the loosest one. */
  predicate Within(a: int, b: int) {
    b < 0 || 0 <= a <= b
  }

  type Unreadable = set<(Side, File)>

  /** The per-core runtime the ordering decision is based on: 0 whenever it cannot be obtained. */
  function CurrentMultiRuntime(g: Group, core: Core, readable: bool): int {
    if readable && core.Index? && core.Fits(|g.multi|) then g.multi[core.k] else 0
  }

  function FlagsFor(pod: Group, req: Request, unreadable: Unreadable): Flags {
    Flags(
      IsRuntimeDecrease(pod.runtime, req.runtime),
      IsDecrease(pod.period, req.period),
      req.core.Some? && IsRuntimeDecrease(
        CurrentMultiRuntime(pod, req.core.value, (Pod, MultiRuntimeFile) !in unreadable), req.runtime))
  }

  // ---- The order of writes -------------------------------------------------

  function RuntimePayload(value: int, core: Option<Core>): Payload {
    if core.Some? then Multi(core.value, value) else Runtime(value)
  }

  function GroupSteps(side: Side, req: Request, decreasing: bool): seq<Step> {
    var rt := Step(side, RuntimePayload(req.Clamped(), req.core));
    var per := Step(side, Period(req.period));
    (if decreasing then [rt, per] else [per, rt]) +
    (if req.core.Some? then [Step(side, Cpuset(req.core.value))] else [])
  }

  function NormalSteps(req: Request, decreasing: bool): seq<Step> {
    if decreasing then GroupSteps(Container, req, decreasing) + GroupSteps(Pod, req, decreasing)
    else GroupSteps(Pod, req, decreasing) + GroupSteps(Container, req, decreasing)
  }

  function EscalationSteps(runtime: int, core: Option<Core>, decreasing: bool): seq<Step> {
    var p := RuntimePayload(runtime, core);
    if decreasing then [Step(Container, p), Step(Pod, p)] else [Step(Pod, p), Step(Container, p)]
  }

  /** Whether the request counts as lowering limits, so that the container goes first. */
  predicate Decreasing(pod: Group, req: Request, unreadable: Unreadable) {
    var flags := FlagsFor(pod, req, unreadable);
    if !req.onlyRuntime then flags.Any()
    else if req.core.Some? then flags.multi
    else flags.runtime
  }

  function StepsIn(req: Request, decreasing: bool): seq<Step> {
    if req.onlyRuntime then EscalationSteps(req.runtime, req.core, decreasing) else NormalSteps(req, decreasing)
  }

  function StepsFor(pod: Group, req: Request, unreadable: Unreadable): seq<Step> {
    StepsIn(req, Decreasing(pod, req, unreadable))
  }

  // ---- Running the writes under faults -------------------------------------

  /** `accepts` is the number of further writes that go through before one is refused;
      `visited` lists the states after each write that went through. */
  datatype World = World(pair: Pair, accepts: nat, visited: seq<Pair>)

  datatype Outcome = Outcome(world: World, ok: bool)

  function Write(w: World, st: Step): Outcome {
    if w.accepts == 0 || !Admissible(w.pair.At(st.side), st.payload) then Outcome(w, false)
    else
      var next := Exec(w.pair, st);
      Outcome(World(next, w.accepts - 1, w.visited + [next]), true)
  }

  /** One entry of the write sequence, with the read that may make the write unnecessary. */
  function PerformOne(w: World, unreadable: Unreadable, st: Step): Outcome {
    var g := w.pair.At(st.side);
    match st.payload
    case Period(v) =>
      if (st.side, PeriodFile) !in unreadable && g.period == v then Outcome(w, true) else Write(w, st)
    case Cpuset(c) =>
      if (st.side, CpusetFile) in unreadable then Outcome(w, false)
      else if g.cpuset == Some(c) then Outcome(w, true)
      else Write(w, st)
    case _ => Write(w, st)
  }

  /** Performs the steps in order and stops at the first failure. */
  function Perform(w: World, unreadable: Unreadable, steps: seq<Step>): Outcome
    decreases |steps|
  {
    if steps == [] then Outcome(w, true)
    else
      var o := PerformOne(w, unreadable, steps[0]);
      if o.ok then Perform(o.world, unreadable, steps[1..]) else o
  }

  lemma {:induction false} PerformAppend(w: World, unreadable: Unreadable, a: seq<Step>, b: seq<Step>)
    ensures Perform(w, unreadable, a + b) ==
            var o := Perform(w, unreadable, a);
            if o.ok then Perform(o.world, unreadable, b) else o
    decreases |a|
  {
    if a == [] {
      assert a + b == b;
    } else {
      assert (a + b)[0] == a[0] && (a + b)[1..] == a[1..] + b;
      var o := PerformOne(w, unreadable, a[0]);
      if o.ok {
        PerformAppend(o.world, unreadable, a[1..], b);
      }
    }
  }

  lemma PerformSingle(w: World, unreadable: Unreadable, st: Step)
    ensures Perform(w, unreadable, [st]) == PerformOne(w, unreadable, st)
  {
    var o := PerformOne(w, unreadable, st);
    assert Perform(o.world, unreadable, []) == Outcome(o.world, true);
  }

  /** System-wide values the actuator checks before it touches any cgroup; None is a failed read. */
  datatype Host = Host(cgroupV2: bool, cpuController: bool,
                       rtPeriod: Option<int>, rtRuntime: Option<int>, rootPeriod: Option<int>)
  {
    predicate Permits(period: int) {
      && cgroupV2 && cpuController
      && rtPeriod.Some? && rtRuntime.Some? && rootPeriod.Some?
      && 0 <= rtRuntime.value && 0 < period && 0 < rtPeriod.value
      && (rootPeriod.value == 0 || period <= rootPeriod.value)
    }
  }

  /** The handler accepts a request exactly when what it writes fits: a positive period, and a runtime from 0 up to
      it; "unlimited" is written as 0. */
  lemma ValidMeansFits(req: Request)
    ensures req.Valid() <==> 0 < req.period && 0 <= req.Clamped() <= req.period
    ensures req.Clamped() == if req.runtime < 0 then 0 else req.runtime
  {}

  /** The periods a host permits: none, all positive ones, or all up to the period of kubepods.slice. */
  lemma PermittedPeriods(h: Host, period: int)
    ensures !h.cgroupV2 || !h.cpuController || h.rootPeriod.None? ==> !h.Permits(period)
    ensures h.rtPeriod.None? || h.rtPeriod.value <= 0 ==> !h.Permits(period)
    ensures h.rtRuntime.None? || h.rtRuntime.value < 0 ==> !h.Permits(period)
    ensures h.Permits(1) && h.rootPeriod.value == 0 ==> (h.Permits(period) <==> 1 <= period)
    ensures h.Permits(1) && h.rootPeriod.value != 0 ==> (h.Permits(period) <==> 1 <= period <= h.rootPeriod.value)
    ensures (&& h.cgroupV2 && h.cpuController && h.rtPeriod.Some? && 0 < h.rtPeriod.value
             && h.rtRuntime.Some? && 0 <= h.rtRuntime.value && h.rootPeriod.Some? && 0 <= h.rootPeriod.value) ==>
              h.Permits(1)
    ensures h.Permits(period) ==> h.Permits(1)
  {}

  // ---- The actuator --------------------------------------------------------

  class CgroupFs {
    var container: Group
    var pod: Group
    var accepts: nat
    const unreadable: Unreadable
    ghost var visited: seq<Pair>

    ghost function State(): World
      reads this
    {
      World(Pair(container, pod), accepts, visited)
    }

    constructor (container: Group, pod: Group, accepts: nat, unreadable: Unreadable)
      ensures State() == World(Pair(container, pod), accepts, [])
      ensures this.unreadable == unreadable
    {
      this.container, this.pod, this.accepts, this.unreadable := container, pod, accepts, unreadable;
      visited := [];
    }

    method WriteCgroupFile(side: Side, payload: Payload) returns (ok: bool)
      modifies this
      ensures Outcome(State(), ok) == Write(old(State()), Step(side, payload))
    {
      var g := if side.Container? then container else pod;
      if accepts == 0 || !Admissible(g, payload) {
        return false;
      }
      accepts := accepts - 1;
      if side.Container? {
        container := Store(g, payload);
      } else {
        pod := Store(g, payload);
      }
      visited := visited + [Pair(container, pod)];
      return true;
    }

    method WriteRuntimeFile(side: Side, runtime: int, core: Option<Core>) returns (ok: bool)
      modifies this
      ensures Outcome(State(), ok) ==
              Perform(old(State()), unreadable, [Step(side, RuntimePayload(runtime, core))])
    {
      PerformSingle(State(), unreadable, Step(side, RuntimePayload(runtime, core)));
      if core.Some? {
        ok := WriteCgroupFile(side, Multi(core.value, runtime));
      } else {
        ok := WriteCgroupFile(side, Runtime(runtime));
      }
    }

    /** Writes the period unless the file can be read and already holds it. */
    method WritePeriodIfChanged(side: Side, period: int) returns (ok: bool)
      modifies this
      ensures Outcome(State(), ok) == Perform(old(State()), unreadable, [Step(side, Period(period))])
    {
      PerformSingle(State(), unreadable, Step(side, Period(period)));
      var current := if side.Container? then container.period else pod.period;
      if (side, PeriodFile) !in unreadable && current == period {
        return true;
      }
      ok := WriteCgroupFile(side, Period(period));
    }

    method WriteRtValues(side: Side, req: Request, flags: Flags) returns (ok: bool)
      modifies this
      ensures Outcome(State(), ok) ==
              Perform(old(State()), unreadable, GroupSteps(side, req, flags.Any()))
    {
      ghost var start := State();
      ghost var rt := Step(side, RuntimePayload(req.Clamped(), req.core));
      ghost var per := Step(side, Period(req.period));
      ghost var two := if flags.Any() then [rt, per] else [per, rt];
      ghost var rest := if req.core.Some? then [Step(side, Cpuset(req.core.value))] else [];
      PerformAppend(start, unreadable, two[..1], two[1..]);
      PerformAppend(start, unreadable, two, rest);
      assert two[..1] + two[1..] == two;
      assert GroupSteps(side, req, flags.Any()) == two + rest;

      var writeRuntime := req.runtime;
      if writeRuntime < 0 {
        writeRuntime := 0;
      }
      if flags.period || flags.runtime || flags.multi {
        ok := WriteRuntimeFile(side, writeRuntime, req.core);
        if !ok { return; }
        ok := WritePeriodIfChanged(side, req.period);
        if !ok { return; }
      } else {
        ok := WritePeriodIfChanged(side, req.period);
        if !ok { return; }
        ok := WriteRuntimeFile(side, writeRuntime, req.core);
        if !ok { return; }
      }
      if req.core.Some? {
        PerformSingle(State(), unreadable, Step(side, Cpuset(req.core.value)));
        if (side, CpusetFile) in unreadable {
          return false;
        }
        var current := if side.Container? then container.cpuset else pod.cpuset;
        if current != req.core {
          ok := WriteCgroupFile(side, Cpuset(req.core.value));
        }
      }
    }

    method ApplyRuntimeWithOrder(runtime: int, core: Option<Core>, decreasing: bool) returns (ok: bool)
      modifies this
      ensures Outcome(State(), ok) ==
              Perform(old(State()), unreadable, EscalationSteps(runtime, core, decreasing))
    {
      ghost var steps := EscalationSteps(runtime, core, decreasing);
      PerformAppend(State(), unreadable, steps[..1], steps[1..]);
      assert steps[..1] + steps[1..] == steps;
      if decreasing {
        ok := WriteRuntimeFile(Container, runtime, core);
        if !ok { return; }
        ok := WriteRuntimeFile(Pod, runtime, core);
      } else {
        ok := WriteRuntimeFile(Pod, runtime, core);
        if !ok { return; }
        ok := WriteRuntimeFile(Container, runtime, core);
      }
    }

    /** One request from the preflight checks to the last write. */
    method ApplyCgroup(req: Request, host: Host) returns (ok: bool)
      modifies this
      ensures if host.Permits(req.period) && (Pod, PeriodFile) !in unreadable && (Pod, RuntimeFile) !in unreadable
              then Outcome(State(), ok) ==
                   Perform(old(State()), unreadable, StepsFor(old(pod), req, unreadable))
              else !ok && State() == old(State())
    {
      if !host.cgroupV2 || !host.cpuController || host.rtPeriod.None? || host.rtRuntime.None? {
        return false;
      }
      if host.rtRuntime.value < 0 || req.period <= 0 || host.rtPeriod.value <= 0 {
        return false;
      }
      if host.rootPeriod.None? || (host.rootPeriod.value != 0 && host.rootPeriod.value < req.period) {
        return false;
      }
      if (Pod, PeriodFile) in unreadable || (Pod, RuntimeFile) in unreadable {
        return false;
      }
      var podMultiRuntime := 0;
      if req.core.Some? {
        podMultiRuntime := CurrentMultiRuntime(pod, req.core.value, (Pod, MultiRuntimeFile) !in unreadable);
      }
      var flags := Flags(
        IsRuntimeDecrease(pod.runtime, req.runtime),
        IsDecrease(pod.period, req.period),
        req.core.Some? && IsRuntimeDecrease(podMultiRuntime, req.runtime));
      if req.onlyRuntime {
        var decreasing := flags.runtime;
        if req.core.Some? {
          decreasing := flags.multi;
        }
        ok := ApplyRuntimeWithOrder(req.runtime, req.core, decreasing);
        return;
      }
      if flags.Any() {
        PerformAppend(State(), unreadable, GroupSteps(Container, req, true), GroupSteps(Pod, req, true));
        ok := WriteRtValues(Container, req, flags);
        if !ok { return; }
        ok := WriteRtValues(Pod, req, flags);
      } else {
        PerformAppend(State(), unreadable, GroupSteps(Pod, req, false), GroupSteps(Container, req, false));
        ok := WriteRtValues(Pod, req, flags);
        if !ok { return; }
        ok := WriteRtValues(Container, req, flags);
      }
    }
  }
}
