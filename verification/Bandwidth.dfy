/** The same write sequences under a kernel that compares bandwidth, runtime over period, of the
    container with that of its pod. */
module Bandwidth {
  import opened Wrappers
  import opened CgroupFiles
  import opened WriteSequences
  import WriteOrder

  /** A group's runtime fits its period, and the container's bandwidth fits the pod's:
      c.runtime / c.period <= p.runtime / p.period, multiplied out. */
  ghost predicate Fair(s: Pair) {
    && s.container.runtime <= s.container.period && s.pod.runtime <= s.pod.period
    && s.container.runtime * s.pod.period <= s.pod.runtime * s.container.period
  }

  ghost function FairInv(): Pair -> bool {
    s => Fair(s)
  }

  /** Fair, and no limit is unlimited. */
  ghost predicate Sane(s: Pair) {
    Fair(s) && 0 <= s.container.runtime && 0 <= s.pod.runtime && 0 < s.container.period && 0 < s.pod.period
  }

  /** Both groups carry the same limits. */
  ghost predicate Synchronised(s: Pair, runtime: int, period: int) {
    && s.container.runtime == s.pod.runtime == runtime
    && s.container.period == s.pod.period == period
    && 0 <= runtime <= period && 0 < period
  }

  lemma ScaleLeft(a: int, b: int, k: int)
    requires 0 < k
    ensures a * k <= b * k <==> a <= b
  {
    if a <= b {
      assert 0 <= (b - a) * k;
    } else {
      assert 0 < (a - b) * k;
    }
  }

  lemma MonotoneProduct(a: int, b: int, c: int, d: int)
    requires 0 <= a <= b && 0 <= c <= d
    ensures a * c <= b * d
  {
    assert a * c <= b * c by { assert 0 <= (b - a) * c; }
    assert b * c <= b * d by { assert 0 <= b * (d - c); }
  }

  // ---- Normal mode ---------------------------------------------------------

  /** The container goes first: its runtime and period, then the pod's. */
  lemma DecreasingFair(c: int, cp: int, r: int, p: int, R: int, P: int)
    requires 0 <= c <= cp && 0 < cp && 0 <= r <= p && 0 < p && 0 <= R <= P && 0 < P && (R < r || P < p)
    ensures (&& R <= cp && R * p <= r * cp    // container runtime written
             && R <= P && R * p <= r * P      // container period written
             && R <= p && R * p <= R * P      // pod runtime written
             && R * P <= R * P)               // pod period written
            <==> R == 0 || (R < r && p <= P && R <= cp && R * p <= r * cp)
  {
    if R == 0 {
      MonotoneProduct(0, r, 0, cp);
      MonotoneProduct(0, r, 0, P);
    } else {
      ScaleLeft(p, P, R);
      assert R * p == p * R && R * P == P * R;
      if p <= P && R < r {
        MonotoneProduct(R, r, p, P);
      }
    }
  }

  /** The pod goes first, and within each group the period. */
  lemma IncreasingFair(c: int, cp: int, r: int, p: int, R: int, P: int)
    requires 0 <= c <= cp && 0 < cp && 0 <= r <= p && 0 < p && 0 <= R <= P && r <= R && p <= P
    ensures (&& r <= P && c * P <= r * cp     // pod period written
             && R <= P && c * P <= R * cp     // pod runtime written
             && c <= P && c * P <= R * P      // container period written
             && R * P <= R * P)               // container runtime written
            <==> c * P <= r * cp && c <= R
  {
    ScaleLeft(c, R, P);
    MonotoneProduct(r, R, cp, cp);
  }

  /** A negative runtime is written as 0 but does not count as lowering. */
  lemma ZeroingFair(c: int, cp: int, r: int, P: int)
    requires 0 <= c <= cp && 0 < cp && 0 <= r && 0 < P
    ensures c * P <= 0 <==> c == 0
    ensures 0 <= r * cp && 0 <= r * P
  {
    ScaleLeft(c, 0, P);
    MonotoneProduct(0, r, 0, cp);
    MonotoneProduct(0, r, 0, P);
  }

  /** What a caller can check beforehand. */
  ghost predicate GoesThrough(s: Pair, runtime: int, period: int) {
    var c, cp, r, p := s.container.runtime, s.container.period, s.pod.runtime, s.pod.period;
    if runtime < 0 then period < p || c == 0
    else
      || runtime == 0
      || (runtime < r && p <= period && runtime <= cp && runtime * p <= r * cp)
      || (r <= runtime && p <= period && c * period <= r * cp && c <= runtime)
  }

  /** A fair pair passes only through fair states exactly for these requests. */
  lemma NormalBandwidthExact(s: Pair, req: Request, unreadable: Unreadable)
    requires Sane(s) && req.Valid() && !req.onlyRuntime && req.core.None?
    ensures NeverBroken(s, StepsFor(s.pod, req, unreadable), FairInv()) <==> GoesThrough(s, req.runtime, req.period)
  {
    var c, cp, r, p := s.container.runtime, s.container.period, s.pod.runtime, s.pod.period;
    var decreasing := Decreasing(s.pod, req, unreadable);
    var steps := NormalSteps(req, decreasing);
    NeverBrokenIffAlong(s, steps, FairInv());
    WriteOrder.NormalSteps4(req, decreasing);
    WriteOrder.AlongFour(s, steps, FairInv());
    if req.runtime < 0 {
      ZeroingFair(c, cp, r, req.period);
    } else if decreasing {
      DecreasingFair(c, cp, r, p, req.runtime, req.period);
    } else {
      IncreasingFair(c, cp, r, p, req.runtime, req.period);
    }
  }

  /** From a synchronised pair there are four families. Raising runtime and period together from a non-zero
      runtime is never among them. */
  lemma SynchronisedFamilies(s: Pair, r: int, p: int, R: int, P: int)
    requires Synchronised(s, r, p) && 0 <= R <= P && 0 < P
    ensures Sane(s)
    ensures GoesThrough(s, R, P) <==>
            R == 0 || (R < r && p <= P) || (r <= R && P == p) || (r == 0 && p <= P)
  {
    if R < r {
      ScaleLeft(R, r, p);
    }
    if 0 < r {
      ScaleLeft(P, p, r);
      assert r * P == P * r && r * p == p * r;
    }
  }

  // ---- Runtime-only mode ---------------------------------------------------

  lemma EscalationFair(c: int, cp: int, r: int, p: int, R: int)
    requires 0 <= c <= cp && 0 < cp && 0 <= r <= p && 0 < p && 0 <= R && c * p <= r * cp
    ensures R < r ==> ((R <= cp && R * p <= r * cp && R * p <= R * cp) <==> R <= cp && (R == 0 || p <= cp))
    ensures r <= R ==> ((R <= p && c * p <= R * cp && R <= cp && R * p <= R * cp) <==>
                        R <= p && R <= cp && (R == 0 || p <= cp))
  {
    if R == 0 {
      MonotoneProduct(0, r, 0, cp);
    } else {
      ScaleLeft(p, cp, R);
      assert R * p == p * R && R * cp == cp * R;
    }
    if R < r {
      MonotoneProduct(R, r, cp, cp);
    } else {
      MonotoneProduct(r, R, cp, cp);
    }
  }

  /** An escalation keeps the rule exactly when the new runtime fits both periods in force and the container's is
      the longer one; the handler only compares it with the period sent along. */
  lemma EscalationBandwidthExact(s: Pair, req: Request, unreadable: Unreadable)
    requires Sane(s) && req.onlyRuntime && req.core.None? && 0 <= req.runtime
    ensures NeverBroken(s, StepsFor(s.pod, req, unreadable), FairInv()) <==>
            && req.runtime <= s.container.period && req.runtime <= s.pod.period
            && (req.runtime == 0 || s.pod.period <= s.container.period)
  {
    var steps := EscalationSteps(req.runtime, None, req.runtime < s.pod.runtime);
    assert StepsFor(s.pod, req, unreadable) == steps;
    NeverBrokenIffAlong(s, steps, FairInv());
    AlongUnfold(s, steps[0], steps[1], [], FairInv());
    assert steps == [steps[0], steps[1]] + [];
    EscalationFair(s.container.runtime, s.container.period, s.pod.runtime, s.pod.period, req.runtime);
  }

  // ---- A kernel that enforces the rule -------------------------------------

  /** Every write that would break the rule is refused, nothing else is; None when the request is cut off. */
  ghost function Enforced(s: Pair, steps: seq<Step>): Option<Pair>
    decreases |steps|
  {
    if steps == [] then Some(s)
    else if Fair(Exec(s, steps[0])) then Enforced(Exec(s, steps[0]), steps[1..])
    else None
  }

  lemma {:induction false} EnforcedCompletesIff(s: Pair, steps: seq<Step>)
    ensures Enforced(s, steps).Some? <==> Along(s, steps, FairInv())
    ensures Enforced(s, steps).Some? ==> Enforced(s, steps).value == Final(s, steps)
    decreases |steps|
  {
    if steps != [] {
      EnforcedCompletesIff(Exec(s, steps[0]), steps[1..]);
    }
  }

  /** On such a kernel these are the only requests that go through, and each of them leaves both groups at the
      requested values. */
  lemma EnforcedRequestExact(s: Pair, req: Request)
    requires Sane(s) && req.Valid() && !req.onlyRuntime && req.core.None?
    ensures var result := Enforced(s, StepsFor(s.pod, req, {}));
            && (result.Some? <==> GoesThrough(s, req.runtime, req.period))
            && (result.Some? ==> Synchronised(result.value, req.Clamped(), req.period))
  {
    var steps := StepsFor(s.pod, req, {});
    NormalBandwidthExact(s, req, {});
    NeverBrokenIffAlong(s, steps, FairInv());
    EnforcedCompletesIff(s, steps);
    WriteOrder.FinalIsApplied(s, req, Decreasing(s.pod, req, {}));
  }

  // ---- Any history of requests ---------------------------------------------

  /** The pair a request leaves behind when its writes stop at the first unfair one, or after `accepts`. */
  ghost function Left(s: Pair, steps: seq<Step>, accepts: nat): Pair
    decreases |steps|
  {
    if steps == [] || accepts == 0 || !Fair(Exec(s, steps[0])) then s
    else Left(Exec(s, steps[0]), steps[1..], accepts - 1)
  }

  /** Runtimes and periods as the handler lets them through, unlimited escalations aside. */
  predicate Limiting(req: Request) {
    req.Valid() && req.core.None? && 0 <= req.Value()
  }

  ghost function LeftAll(s: Pair, history: seq<(Request, nat)>): Pair {
    if history == [] then s
    else
      var n := |history| - 1;
      var t := LeftAll(s, history[..n]);
      Left(t, StepsFor(t.pod, history[n].0, {}), history[n].1)
  }

  /** Runtime and period writes of limited values. */
  ghost predicate Limited(steps: seq<Step>) {
    forall i :: 0 <= i < |steps| ==>
      match steps[i].payload
      case Runtime(v) => 0 <= v
      case Period(v) => 0 < v
      case _ => false
  }

  lemma {:induction false} LeftSane(s: Pair, steps: seq<Step>, accepts: nat)
    requires Sane(s) && Limited(steps)
    ensures Sane(Left(s, steps, accepts))
    decreases |steps|
  {
    if steps != [] && accepts != 0 && Fair(Exec(s, steps[0])) {
      LeftSane(Exec(s, steps[0]), steps[1..], accepts - 1);
    }
  }

  lemma {:induction false} HistorySane(s: Pair, history: seq<(Request, nat)>)
    requires Sane(s) && forall i :: 0 <= i < |history| ==> Limiting(history[i].0)
    ensures Sane(LeftAll(s, history))
    decreases |history|
  {
    if history != [] {
      var n := |history| - 1;
      HistorySane(s, history[..n]);
      var t := LeftAll(s, history[..n]);
      assert Limiting(history[n].0);
      LeftSane(t, StepsFor(t.pod, history[n].0, {}), history[n].1);
    }
  }

  /** Whatever was requested before, and however much of it was refused: going through runtime 0 at the new period
      reaches every target in two requests. */
  lemma {:induction false} ReachableThroughZero(s: Pair, history: seq<(Request, nat)>, runtime: int, period: int)
    requires Sane(s) && 0 <= runtime <= period && 0 < period
    requires forall i :: 0 <= i < |history| ==> Limiting(history[i].0)
    ensures var zero := Request(period, 0, None, false);
            var target := Request(period, runtime, None, false);
            var r := LeftAll(s, history);
            var t := Enforced(r, StepsFor(r.pod, zero, {}));
            && t.Some?
            && var u := Enforced(t.value, StepsFor(t.value.pod, target, {}));
               u.Some? && Synchronised(u.value, runtime, period)
  {
    HistorySane(s, history);
    var r := LeftAll(s, history);
    var zero := Request(period, 0, None, false);
    EnforcedRequestExact(r, zero);
    var t := Enforced(r, StepsFor(r.pod, zero, {})).value;
    SynchronisedFamilies(t, 0, period, runtime, period);
    EnforcedRequestExact(t, Request(period, runtime, None, false));
  }

  /** A refused lowering is such a history: of (500, 1000) to (400, 500) only the container's runtime is written. */
  lemma RefusedLowering()
    ensures var g := Group(1000, 500, [], None);
            LeftAll(Pair(g, g), [(Request(500, 400, None, false), 6)]) == Pair(g.(runtime := 400), g)
  {
    var g := Group(1000, 500, [], None);
    var req := Request(500, 400, None, false);
    var steps := StepsFor(g, req, {});
    WriteOrder.NormalSteps4(req, true);
    var s := Pair(g.(runtime := 400), g);
    assert steps[0] == Step(Container, Runtime(400)) && steps[1] == Step(Container, Period(500));
    assert Exec(Pair(g, g), steps[0]) == s && steps[1..][0] == steps[1];
    assert !Fair(Exec(s, steps[1]));
    var history := [(req, 6)];
    assert history[..0] == [] && LeftAll(Pair(g, g), []) == Pair(g, g);
    assert Left(s, steps[1..], 5) == s;
  }
}
