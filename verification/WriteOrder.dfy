/** Exactly when the order of writes chosen by the actuator keeps the container inside its pod,
    and why a request that failed halfway can simply be sent again. */
module WriteOrder {
  import opened Wrappers
  import opened CgroupFiles
  import opened WriteSequences

  // ---- What has to hold between any two writes -----------------------------

  /** The container is no looser than its pod on the limit that a request for `core` sets. */
  ghost predicate Ordered(s: Pair, core: Option<Core>) {
    match core
    case None => Within(s.container.runtime, s.pod.runtime)
    case Some(c) =>
      forall i :: 0 <= i < |s.container.multi| && i < |s.pod.multi| && c.Touches(i) ==>
        Within(s.container.multi[i], s.pod.multi[i])
  }

  /** In addition, a group's runtime fits into the group's own period. */
  ghost predicate Kept(s: Pair, core: Option<Core>) {
    && Ordered(s, core)
    && (core.None? ==> s.container.runtime <= s.container.period && s.pod.runtime <= s.pod.period)
  }

  ghost function KeptFor(core: Option<Core>): Pair -> bool {
    s => Kept(s, core)
  }

  ghost function OrderedFor(core: Option<Core>): Pair -> bool {
    s => Ordered(s, core)
  }

  ghost predicate CoreFits(s: Pair, core: Option<Core>) {
    core.Some? ==> core.value.Fits(|s.container.multi|) && core.value.Fits(|s.pod.multi|)
  }

  /** A runtime decrease is exactly a change that leaves the old limit outside the new one. */
  lemma DecreaseMeansTighter(oldRuntime: int, newRuntime: int)
    ensures IsRuntimeDecrease(oldRuntime, newRuntime) <==> !Within(oldRuntime, newRuntime)
  {}

  // ---- Escalation: one runtime write on each side --------------------------

  /** With the container first, the new limit has to fit the pod's old one; with the pod first, the container's
      old limit has to fit the new one. */
  ghost predicate LimitFits(s: Pair, value: int, core: Option<Core>, decreasing: bool) {
    match core
    case None =>
      if decreasing then Within(value, s.pod.runtime) else Within(s.container.runtime, value)
    case Some(c) =>
      forall i :: 0 <= i < |s.container.multi| && i < |s.pod.multi| && c.Touches(i) ==>
        if decreasing then Within(value, s.pod.multi[i]) else Within(s.container.multi[i], value)
  }

  /** The order of one core's limits depends on the per-core files only. */
  lemma SameSlots(s: Pair, t: Pair, c: Core, w: int)
    requires s.container.multi == t.container.multi && s.pod.multi == t.pod.multi
    ensures Kept(s, Some(c)) == Kept(t, Some(c))
    ensures forall d: bool :: LimitFits(s, w, Some(c), d) == LimitFits(t, w, Some(c), d)
  {}

  lemma FirstSlotWrite(s: Pair, c: Core, w: int)
    ensures Kept(Exec(s, Step(Container, Multi(c, w))), Some(c)) <==> LimitFits(s, w, Some(c), true)
    ensures Kept(Exec(s, Step(Pod, Multi(c, w))), Some(c)) <==> LimitFits(s, w, Some(c), false)
  {
    var t, u := Exec(s, Step(Container, Multi(c, w))), Exec(s, Step(Pod, Multi(c, w)));
    assert forall i :: 0 <= i < |s.container.multi| && i < |s.pod.multi| && c.Touches(i) ==>
      t.container.multi[i] == w == u.pod.multi[i];
  }

  lemma SecondSlotWrite(s: Pair, t: Pair, side: Side, c: Core, w: int)
    requires t.container.multi == Exec(s, Step(side, Multi(c, w))).container.multi
    requires t.pod.multi == Exec(s, Step(side, Multi(c, w))).pod.multi
    ensures Kept(Exec(t, Step(if side.Container? then Pod else Container, Multi(c, w))), Some(c))
  {
    var u := Exec(t, Step(if side.Container? then Pod else Container, Multi(c, w)));
    assert forall i :: 0 <= i < |u.container.multi| && i < |u.pod.multi| && c.Touches(i) ==>
      u.container.multi[i] == w == u.pod.multi[i];
  }

  lemma EscalationOrderExact(s: Pair, runtime: int, core: Option<Core>, decreasing: bool)
    requires Ordered(s, core) && CoreFits(s, core)
    ensures NeverBroken(s, EscalationSteps(runtime, core, decreasing), OrderedFor(core)) <==>
            LimitFits(s, runtime, core, decreasing)
  {
    var steps := EscalationSteps(runtime, core, decreasing);
    NeverBrokenIffAlong(s, steps, OrderedFor(core));
    AlongUnfold(s, steps[0], steps[1], [], OrderedFor(core));
    assert [steps[0], steps[1]] + [] == steps;
    if core.Some? {
      FirstSlotWrite(s, core.value, runtime);
      SecondSlotWrite(s, Exec(s, steps[0]), if decreasing then Container else Pod, core.value, runtime);
    }
  }

  // ---- Normal mode: runtime and period on each side ------------------------

  ghost predicate NormalFits(s: Pair, req: Request, decreasing: bool) {
    var w := req.Clamped();
    match req.core
    case None =>
      if decreasing then Within(w, s.pod.runtime) && w <= s.container.period && w <= s.pod.period
      else s.pod.runtime <= req.period && Within(s.container.runtime, w)
    case Some(c) => LimitFits(s, w, req.core, decreasing)
  }

  lemma NormalSteps4(req: Request, decreasing: bool)
    requires req.core.None?
    ensures var x := if decreasing then Container else Pod;
            var y := if decreasing then Pod else Container;
            var rt := Runtime(req.Clamped());
            var per := Period(req.period);
            NormalSteps(req, decreasing) ==
            if decreasing then [Step(x, rt), Step(x, per)] + ([Step(y, rt), Step(y, per)] + [])
            else [Step(x, per), Step(x, rt)] + ([Step(y, per), Step(y, rt)] + [])
  {}

  lemma AlongFour(s: Pair, steps: seq<Step>, inv: Pair -> bool)
    requires |steps| == 4
    ensures var s1 := Exec(s, steps[0]); var s2 := Exec(s1, steps[1]);
            var s3 := Exec(s2, steps[2]); var s4 := Exec(s3, steps[3]);
            Along(s, steps, inv) <==> inv(s1) && inv(s2) && inv(s3) && inv(s4)
  {
    AlongUnfold(s, steps[0], steps[1], [steps[2], steps[3]] + [], inv);
    AlongUnfold(Exec(Exec(s, steps[0]), steps[1]), steps[2], steps[3], [], inv);
    assert steps == [steps[0], steps[1]] + ([steps[2], steps[3]] + []);
  }

  lemma NormalAlongNoCore(s: Pair, req: Request, decreasing: bool)
    requires req.Valid() && req.core.None? && Kept(s, None)
    ensures Along(s, NormalSteps(req, decreasing), KeptFor(None)) <==> NormalFits(s, req, decreasing)
  {
    NormalSteps4(req, decreasing);
    AlongFour(s, NormalSteps(req, decreasing), KeptFor(None));
  }

  lemma NormalOrderedNoCore(s: Pair, req: Request, decreasing: bool)
    requires req.core.None? && Ordered(s, None)
    ensures Along(s, NormalSteps(req, decreasing), OrderedFor(None)) <==>
            LimitFits(s, req.Clamped(), None, decreasing)
  {
    NormalSteps4(req, decreasing);
    AlongFour(s, NormalSteps(req, decreasing), OrderedFor(None));
  }

  lemma NormalSteps6(req: Request, decreasing: bool)
    requires req.core.Some?
    ensures var x := if decreasing then Container else Pod;
            var y := if decreasing then Pod else Container;
            var rt := Multi(req.core.value, req.Clamped());
            var per := Period(req.period);
            var cpu := Cpuset(req.core.value);
            NormalSteps(req, decreasing) ==
            if decreasing
            then [Step(x, rt), Step(x, per)] + ([Step(x, cpu), Step(y, rt)] + ([Step(y, per), Step(y, cpu)] + []))
            else [Step(x, per), Step(x, rt)] + ([Step(x, cpu), Step(y, per)] + ([Step(y, rt), Step(y, cpu)] + []))
  {}

  lemma AlongSix(s: Pair, steps: seq<Step>, inv: Pair -> bool)
    requires |steps| == 6
    ensures var s1 := Exec(s, steps[0]); var s2 := Exec(s1, steps[1]); var s3 := Exec(s2, steps[2]);
            var s4 := Exec(s3, steps[3]); var s5 := Exec(s4, steps[4]); var s6 := Exec(s5, steps[5]);
            Along(s, steps, inv) <==> inv(s1) && inv(s2) && inv(s3) && inv(s4) && inv(s5) && inv(s6)
  {
    var s2 := Exec(Exec(s, steps[0]), steps[1]);
    var s4 := Exec(Exec(s2, steps[2]), steps[3]);
    var tail := [steps[4], steps[5]] + [];
    AlongUnfold(s, steps[0], steps[1], [steps[2], steps[3]] + tail, inv);
    AlongUnfold(s2, steps[2], steps[3], tail, inv);
    AlongUnfold(s4, steps[4], steps[5], [], inv);
    assert steps == [steps[0], steps[1]] + ([steps[2], steps[3]] + tail);
  }

  lemma DecreasingAlongCore(s: Pair, req: Request)
    requires req.core.Some?
    ensures Along(s, NormalSteps(req, true), KeptFor(req.core)) <==> NormalFits(s, req, true)
  {
    NormalSteps6(req, true);
    var steps := NormalSteps(req, true);
    var c, w := req.core.value, req.Clamped();
    AlongSix(s, steps, KeptFor(req.core));
    var s1 := Exec(s, steps[0]);
    var s2 := Exec(s1, steps[1]);
    var s3 := Exec(s2, steps[2]);
    var s4 := Exec(s3, steps[3]);
    var s5 := Exec(s4, steps[4]);
    FirstSlotWrite(s, c, w);
    SameSlots(s1, s2, c, w);
    SameSlots(s1, s3, c, w);
    SecondSlotWrite(s, s3, Container, c, w);
    SameSlots(s4, s5, c, w);
    SameSlots(s4, Exec(s5, steps[5]), c, w);
  }

  lemma IncreasingAlongCore(s: Pair, req: Request)
    requires req.core.Some? && Kept(s, req.core)
    ensures Along(s, NormalSteps(req, false), KeptFor(req.core)) <==> NormalFits(s, req, false)
  {
    NormalSteps6(req, false);
    var steps := NormalSteps(req, false);
    var c, w := req.core.value, req.Clamped();
    AlongSix(s, steps, KeptFor(req.core));
    var s1 := Exec(s, steps[0]);
    var s2 := Exec(s1, steps[1]);
    var s3 := Exec(s2, steps[2]);
    var s4 := Exec(s3, steps[3]);
    var s5 := Exec(s4, steps[4]);
    SameSlots(s, s1, c, w);
    FirstSlotWrite(s1, c, w);
    SameSlots(s2, s3, c, w);
    SameSlots(s2, s4, c, w);
    SecondSlotWrite(s1, s4, Pod, c, w);
    SameSlots(s5, Exec(s5, steps[5]), c, w);
  }

  lemma NormalAddressable(s: Pair, req: Request, decreasing: bool)
    requires CoreFits(s, req.core)
    ensures Addressable(s, NormalSteps(req, decreasing))
  {}

  /** The full normal-mode request, every direction flag and every fault included. */
  lemma NormalOrderExact(s: Pair, req: Request, unreadable: Unreadable)
    requires req.Valid() && !req.onlyRuntime && Kept(s, req.core) && CoreFits(s, req.core)
    ensures NeverBroken(s, StepsFor(s.pod, req, unreadable), KeptFor(req.core)) <==>
            NormalFits(s, req, FlagsFor(s.pod, req, unreadable).Any())
  {
    var decreasing := FlagsFor(s.pod, req, unreadable).Any();
    NormalAddressable(s, req, decreasing);
    NeverBrokenIffAlong(s, NormalSteps(req, decreasing), KeptFor(req.core));
    if req.core.None? {
      NormalAlongNoCore(s, req, decreasing);
    } else {
      DecreasingAlongCore(s, req);
      IncreasingAlongCore(s, req);
    }
  }

  /** The order alone, without the periods, for either direction: what the first runtime write meets decides. */
  lemma DirectionExact(s: Pair, req: Request, decreasing: bool)
    requires Ordered(s, req.core) && CoreFits(s, req.core)
    ensures NeverBroken(s, StepsIn(req, decreasing), OrderedFor(req.core)) <==>
            LimitFits(s, req.Value(), req.core, decreasing)
  {
    if req.onlyRuntime {
      EscalationOrderExact(s, req.runtime, req.core, decreasing);
    } else {
      var steps := NormalSteps(req, decreasing);
      NormalAddressable(s, req, decreasing);
      NeverBrokenIffAlong(s, steps, OrderedFor(req.core));
      if req.core.None? {
        NormalOrderedNoCore(s, req, decreasing);
      } else {
        DecreasingAlongCore(s, req);
        IncreasingAlongCore(s, req);
        AlongSix(s, steps, KeptFor(req.core));
        AlongSix(s, steps, OrderedFor(req.core));
      }
    }
  }

  /** The same for the direction the flags give. */
  lemma RequestOrderExact(s: Pair, req: Request, unreadable: Unreadable)
    requires Ordered(s, req.core) && CoreFits(s, req.core)
    ensures NeverBroken(s, StepsFor(s.pod, req, unreadable), OrderedFor(req.core)) <==>
            LimitFits(s, req.Value(), req.core, Decreasing(s.pod, req, unreadable))
  {
    DirectionExact(s, req, Decreasing(s.pod, req, unreadable));
  }

  /** The direction in fields. A core range, an index without a slot and an unreadable per-core file never make a
      request count as lowering. */
  lemma DirectionMeans(pod: Group, req: Request, unreadable: Unreadable)
    ensures var R, P := req.runtime, req.period;
            var runtimeDown := 0 <= R && (pod.runtime < 0 || R < pod.runtime);
            var slotDown :=
              && req.core.Some? && req.core.value.Index? && (Pod, MultiRuntimeFile) !in unreadable
              && 0 <= req.core.value.k < |pod.multi|
              && 0 <= R && (pod.multi[req.core.value.k] < 0 || R < pod.multi[req.core.value.k]);
            Decreasing(pod, req, unreadable) <==>
            if req.onlyRuntime then (if req.core.None? then runtimeDown else slotDown)
            else runtimeDown || P < pod.period || slotDown
  {}

  // ---- The same, in terms of the request alone -----------------------------

  /** Without a core, the container exceeds the pod for exactly one kind of request: a limited pod's runtime
      goes up while the period goes down. */
  lemma PromiseExact(s: Pair, req: Request, unreadable: Unreadable)
    requires !req.onlyRuntime && req.core.None? && 0 <= req.runtime && Ordered(s, None)
    ensures NeverBroken(s, StepsFor(s.pod, req, unreadable), OrderedFor(None)) <==>
            !(0 <= s.pod.runtime < req.runtime && req.period < s.pod.period)
  {
    RequestOrderExact(s, req, unreadable);
  }

  /** With the runtimes' own periods as well: a request that counts as lowering limits must also fit both old
      periods, since the runtimes are written first. */
  lemma LimitOrderExact(s: Pair, req: Request, unreadable: Unreadable)
    requires req.Valid() && !req.onlyRuntime && req.core.None? && 0 <= req.runtime && Kept(s, None)
    ensures var lowers := req.period < s.pod.period || !Within(s.pod.runtime, req.runtime);
            NeverBroken(s, StepsFor(s.pod, req, unreadable), KeptFor(None)) <==>
            && !(0 <= s.pod.runtime < req.runtime && req.period < s.pod.period)
            && (lowers ==> req.runtime <= s.container.period && req.runtime <= s.pod.period)
  {
    NormalOrderExact(s, req, unreadable);
  }

  /** A negative runtime is written as 0 although the flags saw "unlimited": with the period kept or raised
      the pod is zeroed first, so everything the container writes must already be at 0. */
  lemma NegativeRuntimeExact(s: Pair, req: Request, unreadable: Unreadable)
    requires !req.onlyRuntime && req.runtime < 0 && Ordered(s, req.core) && CoreFits(s, req.core)
    ensures NeverBroken(s, StepsFor(s.pod, req, unreadable), OrderedFor(req.core)) <==>
            || req.period < s.pod.period
            || (match req.core
                case None => s.container.runtime == 0
                case Some(c) => forall i :: 0 <= i < |s.container.multi| && i < |s.pod.multi| && c.Touches(i) ==>
                  s.container.multi[i] == 0)
  {
    RequestOrderExact(s, req, unreadable);
  }

  /** The same with the runtimes' own periods, which adds nothing. */
  lemma NegativeRuntimeKeptExact(s: Pair, req: Request, unreadable: Unreadable)
    requires req.Valid() && !req.onlyRuntime && req.core.None? && req.runtime < 0
    requires Kept(s, None) && 0 <= s.container.period
    ensures NeverBroken(s, StepsFor(s.pod, req, unreadable), KeptFor(None)) <==>
            req.period < s.pod.period || s.container.runtime == 0
  {
    NormalOrderExact(s, req, unreadable);
  }

  /** For one core, a raise of that core's runtime must not meet a lowered period or global runtime. */
  lemma CoreOrderExact(s: Pair, req: Request, unreadable: Unreadable)
    requires req.Valid() && !req.onlyRuntime && 0 <= req.runtime
    requires req.core.Some? && req.core.value.Index? && CoreFits(s, req.core) && Kept(s, req.core)
    requires (Pod, MultiRuntimeFile) !in unreadable
    ensures var k := req.core.value.k;
            NeverBroken(s, StepsFor(s.pod, req, unreadable), KeptFor(req.core)) <==>
            !(0 <= s.pod.multi[k] < req.runtime && (req.period < s.pod.period || !Within(s.pod.runtime, req.runtime)))
  {
    NormalOrderExact(s, req, unreadable);
    var k := req.core.value.k;
    DecreaseMeansTighter(s.pod.runtime, req.runtime);
    assert Within(s.container.multi[k], s.pod.multi[k]);
    assert req.core.value.Touches(k);
  }

  /** From runtime 100 in period 1000, a request for 200 in 500 breaks the promise: container 200, pod 100. */
  lemma RaiseBreaksPromise()
    ensures var g := Group(1000, 100, [], None);
            Ordered(Pair(g, g), None) &&
            !NeverBroken(Pair(g, g), StepsFor(g, Request(500, 200, None, false), {}), OrderedFor(None))
  {
    var g := Group(1000, 100, [], None);
    PromiseExact(Pair(g, g), Request(500, 200, None, false), {});
  }

  /** The same request for core 0, whose slot stands at 100. */
  lemma CoreRaiseBreaksOrder()
    ensures var g := Group(1000, 0, [100], None);
            var req := Request(500, 200, Some(Index(0)), false);
            Kept(Pair(g, g), req.core) && !NeverBroken(Pair(g, g), StepsFor(g, req, {}), KeptFor(req.core))
  {
    var g := Group(1000, 0, [100], None);
    CoreOrderExact(Pair(g, g), Request(500, 200, Some(Index(0)), false), {});
  }

  /** Asking for "unlimited" in the same period zeroes the pod first, above a container at 100. */
  lemma NegativeBreaksPromise()
    ensures var g := Group(1000, 100, [], None);
            Ordered(Pair(g, g), None) &&
            !NeverBroken(Pair(g, g), StepsFor(g, Request(1000, -1, None, false), {}), OrderedFor(None))
  {
    var g := Group(1000, 100, [], None);
    NegativeRuntimeExact(Pair(g, g), Request(1000, -1, None, false), {});
  }

  /** A core range, or an unreadable per-core file, is taken for an old value of 0, so the pod goes first:
      an escalation is then safe exactly when the container's slots already fit the new limit. */
  lemma BlindEscalationExact(s: Pair, req: Request, unreadable: Unreadable)
    requires req.onlyRuntime && req.core.Some? && CoreFits(s, req.core) && Ordered(s, req.core)
    requires req.core.value.Span? || (Pod, MultiRuntimeFile) in unreadable
    ensures NeverBroken(s, StepsFor(s.pod, req, unreadable), OrderedFor(req.core)) <==>
            forall i :: 0 <= i < |s.container.multi| && i < |s.pod.multi| && req.core.value.Touches(i) ==>
              Within(s.container.multi[i], req.runtime)
  {
    EscalationOrderExact(s, req.runtime, req.core, false);
  }

  /** The same in normal mode: unless period or global runtime count as lower, the pod goes first. */
  lemma BlindRequestExact(s: Pair, req: Request, unreadable: Unreadable)
    requires !req.onlyRuntime && 0 <= req.runtime && req.core.Some?
    requires CoreFits(s, req.core) && Ordered(s, req.core)
    requires req.core.value.Span? || (Pod, MultiRuntimeFile) in unreadable
    ensures NeverBroken(s, StepsFor(s.pod, req, unreadable), OrderedFor(req.core)) <==>
            forall i :: 0 <= i < |s.container.multi| && i < |s.pod.multi| && req.core.value.Touches(i) ==>
              if req.period < s.pod.period || !Within(s.pod.runtime, req.runtime)
              then Within(req.runtime, s.pod.multi[i])
              else Within(s.container.multi[i], req.runtime)
  {
    RequestOrderExact(s, req, unreadable);
  }

  /** Lowering cores 0-1 from 500 to 100 as one range passes through container 500, pod 100. */
  lemma RangeDecreaseBreaksOrder()
    ensures var g := Group(1000, 0, [500, 500], None);
            var req := Request(1000, 100, Some(Span(0, 1)), true);
            Ordered(Pair(g, g), req.core) &&
            !NeverBroken(Pair(g, g), StepsFor(g, req, {}), OrderedFor(req.core))
  {
    var g := Group(1000, 0, [500, 500], None);
    var req := Request(1000, 100, Some(Span(0, 1)), true);
    BlindEscalationExact(Pair(g, g), req, {});
    assert req.core.value.Touches(0) && !Within(g.multi[0], 100);
  }

  /** With the per-core file readable and one index, the order is always right. */
  lemma EscalationAlwaysSafe(s: Pair, req: Request, unreadable: Unreadable)
    requires req.onlyRuntime && CoreFits(s, req.core) && Ordered(s, req.core)
    requires req.core.Some? ==> req.core.value.Index? && (Pod, MultiRuntimeFile) !in unreadable
    ensures NeverBroken(s, StepsFor(s.pod, req, unreadable), OrderedFor(req.core))
  {
    RequestOrderExact(s, req, unreadable);
  }

  // ---- What a request leaves alone -----------------------------------------

  /** Without a core, the per-core limits and the cpusets are as before; with one, the global runtimes and all
      other slots are. */
  ghost predicate Framed(s: Pair, t: Pair, core: Option<Core>) {
    && |t.container.multi| == |s.container.multi| && |t.pod.multi| == |s.pod.multi|
    && match core
       case None =>
         && t.container.multi == s.container.multi && t.container.cpuset == s.container.cpuset
         && t.pod.multi == s.pod.multi && t.pod.cpuset == s.pod.cpuset
       case Some(c) =>
         && t.container.runtime == s.container.runtime && t.pod.runtime == s.pod.runtime
         && (forall i :: 0 <= i < |s.container.multi| && !c.Touches(i) ==> t.container.multi[i] == s.container.multi[i])
         && (forall i :: 0 <= i < |s.pod.multi| && !c.Touches(i) ==> t.pod.multi[i] == s.pod.multi[i])
  }

  ghost function FramedFor(s: Pair, core: Option<Core>): Pair -> bool {
    t => Framed(s, t, core)
  }

  ghost predicate StepsOf(steps: seq<Step>, core: Option<Core>) {
    forall i :: 0 <= i < |steps| ==>
      match steps[i].payload
      case Period(_) => true
      case Runtime(_) => core == None
      case Multi(c, _) => core == Some(c)
      case Cpuset(c) => core == Some(c)
  }

  lemma {:induction false} FramedAlong(s: Pair, t: Pair, steps: seq<Step>, core: Option<Core>)
    requires Framed(s, t, core) && StepsOf(steps, core)
    ensures Along(t, steps, FramedFor(s, core))
    decreases |steps|
  {
    if steps != [] {
      var next := Exec(t, steps[0]);
      assert Framed(s, next, core);
      FramedAlong(s, next, steps[1..], core);
    }
  }

  /** In either mode and under any faults, no write touches another limit. */
  lemma RequestFrame(s: Pair, req: Request, unreadable: Unreadable)
    ensures NeverBroken(s, StepsFor(s.pod, req, unreadable), FramedFor(s, req.core))
  {
    var steps := StepsFor(s.pod, req, unreadable);
    assert StepsOf(steps, req.core);
    FramedAlong(s, s, steps, req.core);
    forall accepts: nat, u: Unreadable
      ensures All(Perform(World(s, accepts, []), u, steps).world.visited, FramedFor(s, req.core))
    {
      CutShort(World(s, accepts, []), u, steps, FramedFor(s, req.core));
    }
  }

  lemma FinalUnfold(s: Pair, a: Step, b: Step, rest: seq<Step>)
    ensures Final(s, [a, b] + rest) == Final(Exec(Exec(s, a), b), rest)
  {
    assert ([a, b] + rest)[1..] == [b] + rest;
    assert ([b] + rest)[1..] == rest;
  }

  /** An escalation leaves periods and cpusets alone, however it is cut short. */
  ghost predicate OnlyLimits(s: Pair, t: Pair) {
    && t.container.period == s.container.period && t.pod.period == s.pod.period
    && t.container.cpuset == s.container.cpuset && t.pod.cpuset == s.pod.cpuset
  }

  ghost function OnlyLimitsFor(s: Pair): Pair -> bool {
    t => OnlyLimits(s, t)
  }

  lemma EscalationFrame(s: Pair, req: Request, unreadable: Unreadable)
    requires req.onlyRuntime && CoreFits(s, req.core)
    ensures NeverBroken(s, StepsFor(s.pod, req, unreadable), OnlyLimitsFor(s))
    ensures var t := Final(s, StepsFor(s.pod, req, unreadable));
            match req.core
            case None => t.container.runtime == t.pod.runtime == req.runtime
            case Some(c) =>
              && t.container.multi == Store(s.container, Multi(c, req.runtime)).multi
              && t.pod.multi == Store(s.pod, Multi(c, req.runtime)).multi
  {
    var steps := StepsFor(s.pod, req, unreadable);
    assert steps == [steps[0], steps[1]] + [];
    NeverBrokenIffAlong(s, steps, OnlyLimitsFor(s));
    AlongUnfold(s, steps[0], steps[1], [], OnlyLimitsFor(s));
    FinalUnfold(s, steps[0], steps[1], []);
  }

  /** A normal-mode request that is in force already, in readable files. */
  ghost predicate InPlace(s: Pair, req: Request, unreadable: Unreadable) {
    forall side: Side ::
      && s.At(side).period == req.period && (side, PeriodFile) !in unreadable
      && (req.core.Some? ==> s.At(side).cpuset == req.core && (side, CpusetFile) !in unreadable)
  }

  lemma RuntimeKeepsInPlace(s: Pair, side: Side, req: Request, unreadable: Unreadable)
    requires InPlace(s, req, unreadable)
    ensures InPlace(Exec(s, Step(side, RuntimePayload(req.Clamped(), req.core))), req, unreadable)
  {
    var t := Exec(s, Step(side, RuntimePayload(req.Clamped(), req.core)));
    forall other: Side
      ensures t.At(other).period == s.At(other).period && t.At(other).cpuset == s.At(other).cpuset
    {}
  }

  lemma GroupInPlace(w: World, side: Side, req: Request, decreasing: bool, unreadable: Unreadable)
    requires InPlace(w.pair, req, unreadable)
    ensures Perform(w, unreadable, GroupSteps(side, req, decreasing)) ==
            Write(w, Step(side, RuntimePayload(req.Clamped(), req.core)))
  {
    var steps := GroupSteps(side, req, decreasing);
    var rt, per := Step(side, RuntimePayload(req.Clamped(), req.core)), Step(side, Period(req.period));
    var rest := if req.core.Some? then [Step(side, Cpuset(req.core.value))] else [];
    var two := if decreasing then [rt, per] else [per, rt];
    assert steps == [two[0]] + ([two[1]] + rest);
    PerformAppend(w, unreadable, [two[0]], [two[1]] + rest);
    PerformSingle(w, unreadable, two[0]);
    var o := Write(w, rt);
    if o.ok {
      RuntimeKeepsInPlace(w.pair, side, req, unreadable);
      var mid := PerformOne(w, unreadable, two[0]).world;
      PerformAppend(mid, unreadable, [two[1]], rest);
      PerformSingle(mid, unreadable, two[1]);
      if req.core.Some? {
        PerformSingle(o.world, unreadable, rest[0]);
      }
    } else if !decreasing {
      PerformAppend(w, unreadable, [rt], rest);
      PerformSingle(w, unreadable, rt);
    }
  }

  /** Periods and cpusets that are in place are not written again: such a request makes its two runtime writes and
      no others, so it succeeds exactly when these go through. */
  lemma InPlaceWritesTwice(s: Pair, req: Request, accepts: nat, unreadable: Unreadable)
    requires !req.onlyRuntime && InPlace(s, req, unreadable) && CoreFits(s, req.core)
    ensures var o := Perform(World(s, accepts, []), unreadable, StepsFor(s.pod, req, unreadable));
            && (o.ok <==> 2 <= accepts)
            && |o.world.visited| == if 2 <= accepts then 2 else accepts
  {
    var decreasing := Decreasing(s.pod, req, unreadable);
    var x, y := if decreasing then Container else Pod, if decreasing then Pod else Container;
    var w := World(s, accepts, []);
    PerformAppend(w, unreadable, GroupSteps(x, req, decreasing), GroupSteps(y, req, decreasing));
    GroupInPlace(w, x, req, decreasing, unreadable);
    var o := Write(w, Step(x, RuntimePayload(req.Clamped(), req.core)));
    if o.ok {
      RuntimeKeepsInPlace(s, x, req, unreadable);
      GroupInPlace(o.world, y, req, decreasing, unreadable);
    }
  }

  // ---- Sending a failed request again --------------------------------------

  /** What one attempt meets: how many writes go through, and which files cannot be read. */
  datatype Attempt = Attempt(accepts: nat, unreadable: Unreadable) {
    /** The pod's values are read, so the attempt gets as far as writing. */
    predicate Starts() {
      (Pod, PeriodFile) !in unreadable && (Pod, RuntimeFile) !in unreadable
    }

    /** Nothing goes wrong: a request has at most six writes. */
    predicate Unhindered() {
      Starts() && 6 <= accepts && (Pod, CpusetFile) !in unreadable && (Container, CpusetFile) !in unreadable
    }
  }

  /** Flags are recomputed from whatever the earlier attempt left behind. */
  ghost function Try(s: Pair, req: Request, a: Attempt): Outcome {
    if a.Starts() then Perform(World(s, a.accepts, []), a.unreadable, StepsFor(s.pod, req, a.unreadable))
    else Outcome(World(s, a.accepts, []), false)
  }

  /** Both groups carry the request's values; nothing else changed on the limits. */
  ghost predicate Applied(s: Pair, t: Pair, req: Request) {
    && t.container.period == t.pod.period == req.period
    && (req.core.None? ==>
         && t.container.runtime == t.pod.runtime == req.Clamped()
         && t.container.multi == s.container.multi && t.pod.multi == s.pod.multi
         && t.container.cpuset == s.container.cpuset && t.pod.cpuset == s.pod.cpuset)
    && (req.core.Some? ==>
         && t.container.runtime == s.container.runtime && t.pod.runtime == s.pod.runtime
         && t.container.cpuset == t.pod.cpuset == req.core
         && t.container.multi == Store(s.container, Multi(req.core.value, req.Clamped())).multi
         && t.pod.multi == Store(s.pod, Multi(req.core.value, req.Clamped())).multi)
  }

  ghost predicate RetriesKeep(s: Pair, req: Request, attempts: seq<Attempt>)
    decreases |attempts|
  {
    attempts == [] ||
    (var o := Try(s, req, attempts[0]);
     && All(o.world.visited, KeptFor(req.core))
     && (o.ok ==> Applied(s, o.world.pair, req))
     && (attempts[0].Unhindered() ==> o.ok)
     && RetriesKeep(o.world.pair, req, attempts[1..]))
  }

  /** The condition a request has to meet, with the flags as an attempt computes them from the pod's current
      values; what cannot be read matters only with a core. */
  ghost predicate Resumable(s: Pair, req: Request, unreadable: Unreadable) {
    && Kept(s, req.core) && CoreFits(s, req.core)
    && NormalFits(s, req, FlagsFor(s.pod, req, unreadable).Any())
  }

  /** It is met whichever of these fault patterns the next attempt has. */
  ghost predicate ResumableIn(s: Pair, req: Request, modes: set<Unreadable>) {
    forall u :: u in modes ==> Resumable(s, req, u)
  }

  ghost function ResumableFor(req: Request, modes: set<Unreadable>): Pair -> bool {
    s => ResumableIn(s, req, modes)
  }

  lemma ResumableAlongNoCore(s: Pair, req: Request, mode: Unreadable, modes: set<Unreadable>)
    requires req.Valid() && !req.onlyRuntime && req.core.None? && mode in modes && ResumableIn(s, req, modes)
    ensures Along(s, StepsFor(s.pod, req, mode), ResumableFor(req, modes))
  {
    var steps := StepsFor(s.pod, req, mode);
    assert Resumable(s, req, mode);
    NormalSteps4(req, FlagsFor(s.pod, req, mode).Any());
    AlongFour(s, steps, ResumableFor(req, modes));
  }

  /** Writing one side's slots fits whatever comes to the other side afterwards. */
  lemma SlotWrite(s: Pair, side: Side, c: Core, w: int)
    ensures var t := Exec(s, Step(side, Multi(c, w)));
            && LimitFits(t, w, Some(c), side.Pod?)
            && LimitFits(t, w, Some(c), side.Container?) == LimitFits(s, w, Some(c), side.Container?)
            && (LimitFits(s, w, Some(c), side.Container?) ==> Kept(t, Some(c)))
  {
    var t := Exec(s, Step(side, Multi(c, w)));
    assert t.At(if side.Pod? then Container else Pod) == s.At(if side.Pod? then Container else Pod);
    assert forall i :: 0 <= i < |s.At(side).multi| && c.Touches(i) ==> t.At(side).multi[i] == w;
  }

  /** One step of a request for a core: it may touch the pod only when the container's slots fit the new limit,
      and set the container's slots only when that limit fits the pod's. */
  lemma CoreStepKeeps(s: Pair, st: Step, req: Request, u: Unreadable)
    requires !req.onlyRuntime && req.core.Some? && Resumable(s, req, u)
    requires st.payload in {Period(req.period), Multi(req.core.value, req.Clamped()), Cpuset(req.core.value)}
    requires st.side.Pod? ==> LimitFits(s, req.Clamped(), req.core, false)
    requires st.side.Container? && st.payload.Multi? ==> LimitFits(s, req.Clamped(), req.core, true)
    ensures Resumable(Exec(s, st), req, u)
  {
    var t := Exec(s, st);
    if st.payload.Multi? {
      SlotWrite(s, st.side, req.core.value, req.Clamped());
    } else {
      SameSlots(s, t, req.core.value, req.Clamped());
    }
  }

  lemma CoreStepKeepsAll(s: Pair, st: Step, req: Request, modes: set<Unreadable>)
    requires !req.onlyRuntime && req.core.Some? && ResumableIn(s, req, modes)
    requires st.payload in {Period(req.period), Multi(req.core.value, req.Clamped()), Cpuset(req.core.value)}
    requires st.side.Pod? ==> LimitFits(s, req.Clamped(), req.core, false)
    requires st.side.Container? && st.payload.Multi? ==> LimitFits(s, req.Clamped(), req.core, true)
    ensures ResumableIn(Exec(s, st), req, modes)
    ensures var t, w := Exec(s, st), req.Clamped();
            && (LimitFits(s, w, req.core, st.side.Container?) ==> LimitFits(t, w, req.core, st.side.Container?))
            && (st.payload.Multi? || LimitFits(s, w, req.core, st.side.Pod?) ==>
                 LimitFits(t, w, req.core, st.side.Pod?))
  {
    if st.payload.Multi? {
      SlotWrite(s, st.side, req.core.value, req.Clamped());
    } else {
      SameSlots(s, Exec(s, st), req.core.value, req.Clamped());
    }
    forall u | u in modes
      ensures Resumable(Exec(s, st), req, u)
    {
      CoreStepKeeps(s, st, req, u);
    }
  }

  /** The three writes of one side, in either order. */
  lemma SideKeeps(s: Pair, side: Side, rtFirst: bool, req: Request, modes: set<Unreadable>)
    requires !req.onlyRuntime && req.core.Some? && ResumableIn(s, req, modes)
    requires LimitFits(s, req.Clamped(), req.core, side.Container?)
    ensures var rt, per := Step(side, Multi(req.core.value, req.Clamped())), Step(side, Period(req.period));
            var s1 := Exec(s, if rtFirst then rt else per);
            var s2 := Exec(s1, if rtFirst then per else rt);
            var s3 := Exec(s2, Step(side, Cpuset(req.core.value)));
            && ResumableIn(s1, req, modes) && ResumableIn(s2, req, modes) && ResumableIn(s3, req, modes)
            && LimitFits(s3, req.Clamped(), req.core, side.Pod?)
  {
    var rt, per := Step(side, Multi(req.core.value, req.Clamped())), Step(side, Period(req.period));
    var first, second := if rtFirst then rt else per, if rtFirst then per else rt;
    var s1 := Exec(s, first);
    CoreStepKeepsAll(s, first, req, modes);
    CoreStepKeepsAll(s1, second, req, modes);
    CoreStepKeepsAll(Exec(s1, second), Step(side, Cpuset(req.core.value)), req, modes);
  }

  lemma ResumableAlongCore(s: Pair, req: Request, mode: Unreadable, modes: set<Unreadable>)
    requires !req.onlyRuntime && req.core.Some? && mode in modes && ResumableIn(s, req, modes)
    ensures Along(s, StepsFor(s.pod, req, mode), ResumableFor(req, modes))
  {
    assert Resumable(s, req, mode);
    var decreasing := FlagsFor(s.pod, req, mode).Any();
    var steps := NormalSteps(req, decreasing);
    NormalSteps6(req, decreasing);
    SideKeeps(s, if decreasing then Container else Pod, decreasing, req, modes);
    var s3 := Exec(Exec(Exec(s, steps[0]), steps[1]), steps[2]);
    SideKeeps(s3, if decreasing then Pod else Container, decreasing, req, modes);
    AlongSix(s, steps, ResumableFor(req, modes));
  }

  lemma FinalIsApplied(s: Pair, req: Request, decreasing: bool)
    ensures Applied(s, Final(s, NormalSteps(req, decreasing)), req)
  {
    var steps := NormalSteps(req, decreasing);
    if req.core.None? {
      NormalSteps4(req, decreasing);
      FinalUnfold(s, steps[0], steps[1], [steps[2], steps[3]] + []);
      FinalUnfold(Exec(Exec(s, steps[0]), steps[1]), steps[2], steps[3], []);
      assert steps == [steps[0], steps[1]] + ([steps[2], steps[3]] + []);
    } else {
      NormalSteps6(req, decreasing);
      var s2 := Exec(Exec(s, steps[0]), steps[1]);
      var tail := [steps[4], steps[5]] + [];
      FinalUnfold(s, steps[0], steps[1], [steps[2], steps[3]] + tail);
      FinalUnfold(s2, steps[2], steps[3], tail);
      FinalUnfold(Exec(Exec(s2, steps[2]), steps[3]), steps[4], steps[5], []);
      assert steps == [steps[0], steps[1]] + ([steps[2], steps[3]] + tail);
    }
  }

  lemma TryKeeps(s: Pair, req: Request, a: Attempt, modes: set<Unreadable>)
    requires req.Valid() && !req.onlyRuntime && ResumableIn(s, req, modes) && (a.Starts() ==> a.unreadable in modes)
    ensures var o := Try(s, req, a);
            && All(o.world.visited, KeptFor(req.core))
            && ResumableIn(o.world.pair, req, modes)
            && (o.ok ==> Applied(s, o.world.pair, req))
            && (a.Unhindered() ==> o.ok)
  {
    if a.Starts() {
      assert Resumable(s, req, a.unreadable);
      var steps := StepsFor(s.pod, req, a.unreadable);
      var w := World(s, a.accepts, []);
      if req.core.None? {
        ResumableAlongNoCore(s, req, a.unreadable, modes);
      } else {
        ResumableAlongCore(s, req, a.unreadable, modes);
      }
      var visited := Try(s, req, a).world.visited;
      CutShort(w, a.unreadable, steps, ResumableFor(req, modes));
      assert forall i :: 0 <= i < |visited| ==> Resumable(visited[i], req, a.unreadable);
      if a.Unhindered() {
        NormalAddressable(s, req, FlagsFor(s.pod, req, a.unreadable).Any());
        UnhinderedCompletes(w, a.unreadable, steps);
      }
      if Try(s, req, a).ok {
        CompletedIsFinal(w, a.unreadable, steps);
        FinalIsApplied(s, req, FlagsFor(s.pod, req, a.unreadable).Any());
      }
    }
  }

  lemma {:induction false} RetriesKeepIn(s: Pair, req: Request, attempts: seq<Attempt>, modes: set<Unreadable>)
    requires req.Valid() && !req.onlyRuntime && ResumableIn(s, req, modes)
    requires forall i :: 0 <= i < |attempts| && attempts[i].Starts() ==> attempts[i].unreadable in modes
    ensures RetriesKeep(s, req, attempts)
    decreases |attempts|
  {
    if attempts != [] {
      TryKeeps(s, req, attempts[0], modes);
      RetriesKeepIn(Try(s, req, attempts[0]).world.pair, req, attempts[1..], modes);
    }
  }

  /** If every attempt would be safe as the first one, the condition is itself kept by every cut-off attempt: any
      number of failures is harmless, and the first attempt that is not refused completes the request. */
  lemma RetryConverges(s: Pair, req: Request, attempts: seq<Attempt>)
    requires req.Valid() && !req.onlyRuntime
    requires forall i :: 0 <= i < |attempts| && attempts[i].Starts() ==> Resumable(s, req, attempts[i].unreadable)
    ensures RetriesKeep(s, req, attempts)
  {
    RetriesKeepIn(s, req, attempts, set i | 0 <= i < |attempts| && attempts[i].Starts() :: attempts[i].unreadable);
  }

  /** An attempt that all writes of which go through shows a violation before it compares the first cpuset. */
  lemma FullAttemptNeeds(s: Pair, req: Request, a: Attempt)
    requires req.Valid() && !req.onlyRuntime && Kept(s, req.core) && CoreFits(s, req.core)
    requires a.Starts() && 6 <= a.accepts && All(Try(s, req, a).world.visited, KeptFor(req.core))
    ensures Resumable(s, req, a.unreadable)
  {
    var w := World(s, a.accepts, []);
    var decreasing := FlagsFor(s.pod, req, a.unreadable).Any();
    var steps := NormalSteps(req, decreasing);
    NormalAddressable(s, req, decreasing);
    if req.core.None? {
      NormalSteps4(req, decreasing);
      Uncut(w, a.unreadable, steps, KeptFor(None));
      NormalAlongNoCore(s, req, decreasing);
    } else {
      NormalSteps6(req, decreasing);
      var c, v := req.core.value, req.Clamped();
      var two, rest := [steps[0], steps[1]], steps[2..];
      assert steps == two + rest;
      PerformAppend(w, a.unreadable, two, rest);
      var o := Perform(w, a.unreadable, two);
      if o.ok {
        VisitedGrows(o.world, a.unreadable, rest);
      }
      assert All(o.world.visited, KeptFor(req.core));
      Uncut(w, a.unreadable, two, KeptFor(req.core));
      AlongUnfold(s, steps[0], steps[1], [], KeptFor(req.core));
      assert two + [] == two;
      FirstSlotWrite(s, c, v);
      FirstSlotWrite(Exec(s, steps[0]), c, v);
      if !decreasing {
        SameSlots(s, Exec(s, steps[0]), c, v);
      }
    }
  }

  ghost predicate UsesModes(attempts: seq<Attempt>, modes: set<Unreadable>) {
    forall i :: 0 <= i < |attempts| && attempts[i].Starts() ==> attempts[i].unreadable in modes
  }

  /** That condition is exact: retrying under these fault patterns is always safe and convergent if and only if
      each pattern alone would be safe at first. */
  lemma RetryExact(s: Pair, req: Request, modes: set<Unreadable>)
    requires req.Valid() && !req.onlyRuntime && Kept(s, req.core) && CoreFits(s, req.core)
    requires forall u :: u in modes ==> Attempt(6, u).Starts()
    ensures (forall attempts :: UsesModes(attempts, modes) ==> RetriesKeep(s, req, attempts)) <==>
            forall u :: u in modes ==> NormalFits(s, req, FlagsFor(s.pod, req, u).Any())
  {
    if forall u :: u in modes ==> NormalFits(s, req, FlagsFor(s.pod, req, u).Any()) {
      forall attempts | UsesModes(attempts, modes)
        ensures RetriesKeep(s, req, attempts)
      {
        RetryConverges(s, req, attempts);
      }
    }
    if forall attempts :: UsesModes(attempts, modes) ==> RetriesKeep(s, req, attempts) {
      forall u | u in modes
        ensures NormalFits(s, req, FlagsFor(s.pod, req, u).Any())
      {
        assert UsesModes([Attempt(6, u)], modes);
        assert RetriesKeep(s, req, [Attempt(6, u)]);
        FullAttemptNeeds(s, req, Attempt(6, u));
      }
    }
  }

  /** In the plain case: equal periods, a limited pod, and not "runtime up while the period goes down". */
  lemma RetryFromEqualPeriods(s: Pair, req: Request, attempts: seq<Attempt>)
    requires req.Valid() && !req.onlyRuntime && req.core.None? && 0 <= req.runtime
    requires Kept(s, None) && 0 <= s.pod.runtime && s.container.period == s.pod.period
    requires !(s.pod.runtime < req.runtime && req.period < s.pod.period)
    ensures RetriesKeep(s, req, attempts)
  {
    RetryConverges(s, req, attempts);
  }
}
