/** Requests in flight at the same time. The server takes no lock, so the file operations of any mix of
    normal-mode and runtime-only requests interleave freely; each may also fail at any of them. */
module Interleaving {
  import opened Wrappers
  import opened CgroupFiles
  import opened WriteSequences
  import opened WriteOrder

  type PodId = string

  /** Nothing done yet; the pod's values were read and these writes remain; finished; given up. */
  datatype Phase = Fresh | Writing(todo: seq<Step>) | Done | Failed

  datatype Job = Job(pod: PodId, req: Request, phase: Phase) {
    predicate InFlight() {
      phase.Fresh? || phase.Writing?
    }

    /** The request writes this limit: None is the global runtime, Some(i) is slot i. */
    predicate Touches(key: Option<int>) {
      match (req.core, key)
      case (None, None) => true
      case (Some(c), Some(i)) => c.Touches(i)
      case _ => false
    }

    function Payload(): CgroupFiles.Payload {
      RuntimePayload(req.Value(), req.core)
    }
  }

  datatype Sys = Sys(pods: map<PodId, Pair>, jobs: seq<Job>)

  // ---- Limits --------------------------------------------------------------

  predicate Fits(s: Pair, key: Option<int>) {
    key.Some? ==> 0 <= key.value < |s.container.multi|
  }

  function Limit(g: Group, key: Option<int>): int {
    if key.None? then g.runtime
    else if 0 <= key.value < |g.multi| then g.multi[key.value]
    else 0
  }

  /** The same limit: equal, or both unlimited. */
  predicate SameLimit(a: int, b: int) {
    Within(a, b) && Within(b, a)
  }

  /** Every limit of the container is within the same limit of its pod. */
  ghost predicate PairOk(s: Pair) {
    && |s.container.multi| == |s.pod.multi|
    && forall key :: Fits(s, key) ==> Within(Limit(s.container, key), Limit(s.pod, key))
  }

  ghost predicate Safe(s: Sys) {
    forall p :: p in s.pods ==> PairOk(s.pods[p])
  }

  /** A limit that exists and that the request writes. */
  predicate Aims(s: Pair, j: Job, key: Option<int>) {
    j.Touches(key) && Fits(s, key)
  }

  ghost predicate FitsPod(s: Pair, j: Job) {
    forall key :: Aims(s, j, key) ==> Within(j.req.Value(), Limit(s.pod, key))
  }

  ghost predicate FitsContainer(s: Pair, j: Job) {
    forall key :: Aims(s, j, key) ==> Within(Limit(s.container, key), j.req.Value())
  }

  ghost predicate SetOn(s: Pair, side: Side, j: Job) {
    CoreFits(s, j.req.core) && forall key :: Aims(s, j, key) ==> SameLimit(Limit(s.At(side), key), j.req.Value())
  }

  /** What a request has to find when it has read the pod's values, given the order it then chooses. */
  ghost predicate ReadFits(s: Pair, j: Job, seen: Group, unreadable: Unreadable) {
    if Decreasing(seen, j.req, unreadable) then FitsPod(s, j) else FitsContainer(s, j)
  }

  ghost predicate SharesLimit(a: Job, b: Job) {
    a.pod == b.pod && exists key :: a.Touches(key) && b.Touches(key)
  }

  // ---- Steps ---------------------------------------------------------------

  datatype Event =
    | Arrive(job: Job)
    | Read(i: nat, seen: Group, unreadable: Unreadable)
    | WriteNext(i: nat)
    | Fail(i: nat)

  /** Period, runtime and per-core limits are read one after the other, up to the limit the request writes. That one
      is current when the last read is over; the others may be out of date, so anything may have been seen there. */
  predicate Current(pod: Group, seen: Group, core: Option<Core>) {
    if core.Some? then seen.multi == pod.multi else seen.runtime == pod.runtime
  }

  /** What any scheduler can do next. */
  predicate CanRun(s: Sys, e: Event) {
    match e
    case Arrive(j) => j.phase.Fresh? && j.pod in s.pods
    case Read(i, seen, u) =>
      && i < |s.jobs| && s.jobs[i].phase.Fresh? && s.jobs[i].pod in s.pods && Attempt(0, u).Starts()
      && Current(s.pods[s.jobs[i].pod].pod, seen, s.jobs[i].req.core)
    case WriteNext(i) =>
      && i < |s.jobs| && s.jobs[i].phase.Writing? && s.jobs[i].phase.todo != [] && s.jobs[i].pod in s.pods
      && var st := s.jobs[i].phase.todo[0];
         Admissible(s.pods[s.jobs[i].pod].At(st.side), st.payload)
    case Fail(i) => i < |s.jobs| && s.jobs[i].InFlight()
  }

  /** What the callers have to see to, since the handler does not: requests in flight for one limit agree on its
      value, and each request finds its condition when it reads. */
  ghost predicate Enabled(s: Sys, e: Event) {
    && CanRun(s, e)
    && (e.Arrive? ==> forall i :: 0 <= i < |s.jobs| && s.jobs[i].InFlight() && SharesLimit(s.jobs[i], e.job) ==>
         SameLimit(s.jobs[i].req.Value(), e.job.req.Value()))
    && (e.Read? ==> ReadFits(s.pods[s.jobs[e.i].pod], s.jobs[e.i], e.seen, e.unreadable))
  }

  /** A skipped period or cpuset write would have changed nothing, so it is the same step. */
  function Apply(s: Sys, e: Event): Sys
    requires CanRun(s, e)
  {
    match e
    case Arrive(j) => s.(jobs := s.jobs + [j])
    case Read(i, seen, u) =>
      var j := s.jobs[i];
      s.(jobs := s.jobs[i := j.(phase := Writing(StepsFor(seen, j.req, u)))])
    case WriteNext(i) =>
      var j := s.jobs[i];
      var rest := j.phase.todo[1..];
      Sys(s.pods[j.pod := Exec(s.pods[j.pod], j.phase.todo[0])],
          s.jobs[i := j.(phase := if rest == [] then Done else Writing(rest))])
    case Fail(i) => s.(jobs := s.jobs[i := s.jobs[i].(phase := Failed)])
  }

  // ---- The invariant -------------------------------------------------------

  /** The sides whose runtime is still to be written, in order. */
  function RuntimeSides(todo: seq<Step>): seq<Side> {
    if todo == [] then []
    else (if todo[0].payload.Runtime? || todo[0].payload.Multi? then [todo[0].side] else []) + RuntimeSides(todo[1..])
  }

  ghost predicate StepsOfJob(todo: seq<Step>, j: Job) {
    forall k :: 0 <= k < |todo| ==> todo[k].payload == j.Payload() || todo[k].payload.Period? || todo[k].payload.Cpuset?
  }

  /** Between its writes a request relies on the limits it compared with, or on the side it has written. */
  ghost predicate Prepared(s: Pair, j: Job, sides: seq<Side>) {
    || (sides == [Container, Pod] && FitsPod(s, j))
    || (sides == [Pod, Container] && FitsContainer(s, j))
    || (sides == [Pod] && SetOn(s, Container, j))
    || (sides == [Container] && SetOn(s, Pod, j))
    || (sides == [] && SetOn(s, Container, j) && SetOn(s, Pod, j))
  }

  ghost predicate Superseded(s: Sys, i: nat, key: Option<int>)
    requires i < |s.jobs|
  {
    exists k :: i < k < |s.jobs| && s.jobs[k].pod == s.jobs[i].pod && s.jobs[k].Touches(key) &&
                !SameLimit(s.jobs[k].req.Value(), s.jobs[i].req.Value())
  }

  /** A finished request is in force on both sides, limit by limit, unless a later one asked for another value. */
  ghost predicate InForce(s: Sys, i: nat)
    requires i < |s.jobs|
  {
    var j := s.jobs[i];
    j.phase.Done? ==>
      && j.pod in s.pods && CoreFits(s.pods[j.pod], j.req.core)
      && forall key :: Aims(s.pods[j.pod], j, key) && !Superseded(s, i, key) ==>
           && SameLimit(Limit(s.pods[j.pod].container, key), j.req.Value())
           && SameLimit(Limit(s.pods[j.pod].pod, key), j.req.Value())
  }

  ghost predicate JobOk(s: Sys, i: nat)
    requires i < |s.jobs|
  {
    var j := s.jobs[i];
    && j.pod in s.pods
    && (j.phase.Writing? ==>
         StepsOfJob(j.phase.todo, j) && Prepared(s.pods[j.pod], j, RuntimeSides(j.phase.todo)))
    && InForce(s, i)
  }

  ghost predicate Exclusive(s: Sys) {
    forall i, k :: 0 <= i < k < |s.jobs| && s.jobs[i].InFlight() && SharesLimit(s.jobs[i], s.jobs[k]) ==>
      SameLimit(s.jobs[i].req.Value(), s.jobs[k].req.Value())
  }

  ghost predicate Inv(s: Sys) {
    Safe(s) && Exclusive(s) && forall i :: 0 <= i < |s.jobs| ==> JobOk(s, i)
  }

  // ---- Single writes -------------------------------------------------------

  /** A runtime write sets the limits its request names, on its own side, and no others. */
  lemma RuntimeWriteFrame(s: Pair, j: Job, side: Side, key: Option<int>)
    requires |s.container.multi| == |s.pod.multi| && Admissible(s.At(side), j.Payload())
    ensures var t := Exec(s, Step(side, j.Payload()));
            var other := if side.Container? then Pod else Container;
            && CoreFits(s, j.req.core)
            && |t.container.multi| == |t.pod.multi| == |s.pod.multi|
            && t.At(other) == s.At(other)
            && (Fits(s, key) ==>
                 Limit(t.At(side), key) == if j.Touches(key) then j.req.Value() else Limit(s.At(side), key))
  {}

  /** Period and cpuset writes change no limit. */
  lemma OtherWriteFrame(s: Pair, st: Step, key: Option<int>)
    requires st.payload.Period? || st.payload.Cpuset?
    ensures var t := Exec(s, st);
            && Limit(t.container, key) == Limit(s.container, key) && Limit(t.pod, key) == Limit(s.pod, key)
            && |t.container.multi| == |s.container.multi| && |t.pod.multi| == |s.pod.multi|
  {}

  /** What one step of request `w` does to the limit `key`. */
  lemma StepFrame(s: Pair, w: Job, st: Step, key: Option<int>)
    requires |s.container.multi| == |s.pod.multi| && Admissible(s.At(st.side), st.payload)
    requires st.payload == w.Payload() || st.payload.Period? || st.payload.Cpuset?
    ensures var t := Exec(s, st);
            && |t.container.multi| == |t.pod.multi| == |s.pod.multi|
            && (Fits(s, key) ==> forall side ::
                 Limit(t.At(side), key) ==
                 if st.payload == w.Payload() && side == st.side && w.Touches(key) then w.req.Value()
                 else Limit(s.At(side), key))
  {
    if st.payload == w.Payload() {
      RuntimeWriteFrame(s, w, st.side, key);
    } else {
      OtherWriteFrame(s, st, key);
    }
  }

  lemma {:induction false} StepKeepsOrder(s: Pair, w: Job, todo: seq<Step>, key: Option<int>)
    requires PairOk(s) && todo != [] && StepsOfJob(todo, w) && Prepared(s, w, RuntimeSides(todo))
    requires Admissible(s.At(todo[0].side), todo[0].payload) && Fits(s, key)
    ensures Within(Limit(Exec(s, todo[0]).container, key), Limit(Exec(s, todo[0]).pod, key))
  {
    StepFrame(s, w, todo[0], key);
    assert Within(Limit(s.container, key), Limit(s.pod, key));
    if w.Touches(key) {
      assert Aims(s, w, key);
    }
  }

  /** A runtime write settles its own side and leaves the other one to rely on. */
  lemma RuntimeWriteSets(s: Pair, w: Job, side: Side)
    requires |s.container.multi| == |s.pod.multi| && Admissible(s.At(side), w.Payload())
    ensures var t := Exec(s, Step(side, w.Payload()));
            var other := if side.Container? then Pod else Container;
            SetOn(t, side, w) && (SetOn(s, other, w) ==> SetOn(t, other, w))
  {
    RuntimeWriteFrame(s, w, side, None);
    forall key
      ensures var t := Exec(s, Step(side, w.Payload()));
              && (Aims(t, w, key) <==> Aims(s, w, key))
              && (Aims(s, w, key) ==> Limit(t.At(side), key) == w.req.Value())
    {
      RuntimeWriteFrame(s, w, side, key);
    }
  }

  lemma OtherWriteKeepsPrepared(s: Pair, w: Job, st: Step, sides: seq<Side>)
    requires (st.payload.Period? || st.payload.Cpuset?) && Prepared(s, w, sides)
    ensures Prepared(Exec(s, st), w, sides)
  {
    var t := Exec(s, st);
    forall key
      ensures Limit(t.container, key) == Limit(s.container, key) && Limit(t.pod, key) == Limit(s.pod, key)
      ensures Aims(t, w, key) <==> Aims(s, w, key)
    {
      OtherWriteFrame(s, st, key);
    }
    OtherWriteFrame(s, st, None);
  }

  lemma {:induction false} StepPrepares(s: Pair, w: Job, todo: seq<Step>)
    requires PairOk(s) && todo != [] && StepsOfJob(todo, w) && Prepared(s, w, RuntimeSides(todo))
    requires Admissible(s.At(todo[0].side), todo[0].payload)
    ensures Prepared(Exec(s, todo[0]), w, RuntimeSides(todo[1..]))
  {
    var st := todo[0];
    if st.payload == w.Payload() {
      RuntimeWriteSets(s, w, st.side);
      assert RuntimeSides(todo[1..]) == RuntimeSides(todo)[1..];
    } else {
      OtherWriteKeepsPrepared(s, w, st, RuntimeSides(todo));
      assert RuntimeSides(todo[1..]) == RuntimeSides(todo);
    }
  }

  /** A prepared request's next step keeps the pair in order and the request prepared. */
  lemma {:induction false} StepKeepsPair(s: Pair, w: Job, todo: seq<Step>)
    requires PairOk(s) && todo != [] && StepsOfJob(todo, w) && Prepared(s, w, RuntimeSides(todo))
    requires Admissible(s.At(todo[0].side), todo[0].payload)
    ensures PairOk(Exec(s, todo[0]))
    ensures StepsOfJob(todo[1..], w) && Prepared(Exec(s, todo[0]), w, RuntimeSides(todo[1..]))
  {
    var st, t := todo[0], Exec(s, todo[0]);
    StepFrame(s, w, st, None);
    forall key | Fits(s, key)
      ensures Within(Limit(t.container, key), Limit(t.pod, key))
      ensures forall side :: Limit(t.At(side), key) ==
                             if st.payload == w.Payload() && side == st.side && w.Touches(key) then w.req.Value()
                             else Limit(s.At(side), key)
    {
      StepFrame(s, w, st, key);
      StepKeepsOrder(s, w, todo, key);
    }
    StepPrepares(s, w, todo);
  }

  // ---- Other requests in flight --------------------------------------------

  ghost predicate AgreeWhereShared(a: Job, b: Job) {
    (exists key :: a.Touches(key) && b.Touches(key)) ==> SameLimit(a.req.Value(), b.req.Value())
  }

  /** A step of another request leaves a request prepared that shares no limit with it, or agrees on the value. */
  lemma {:induction false} OthersStepKeepsPrepared(s: Pair, w: Job, st: Step, j: Job, sides: seq<Side>)
    requires PairOk(s) && Admissible(s.At(st.side), st.payload)
    requires st.payload == w.Payload() || st.payload.Period? || st.payload.Cpuset?
    requires AgreeWhereShared(w, j) && Prepared(s, j, sides)
    ensures Prepared(Exec(s, st), j, sides)
  {
    var t := Exec(s, st);
    StepFrame(s, w, st, None);
    forall key
      ensures Aims(t, j, key) <==> Aims(s, j, key)
      ensures Aims(s, j, key) ==> forall side ::
                Limit(t.At(side), key) == Limit(s.At(side), key) || SameLimit(Limit(t.At(side), key), j.req.Value())
    {
      StepFrame(s, w, st, key);
    }
  }

  lemma SupersededSame(s: Sys, t: Sys, i: nat, key: Option<int>)
    requires i < |s.jobs| == |t.jobs|
    requires forall k :: 0 <= k < |s.jobs| ==> t.jobs[k].pod == s.jobs[k].pod && t.jobs[k].req == s.jobs[k].req
    ensures Superseded(s, i, key) <==> Superseded(t, i, key)
  {
    forall k | 0 <= k < |s.jobs|
      ensures t.jobs[k].Touches(key) == s.jobs[k].Touches(key)
    {}
  }

  /** A write for other values leaves a finished request in force where it is not superseded. */
  lemma {:induction false} WriteKeepsInForce(s: Sys, i: nat, k: nat)
    requires Inv(s) && CanRun(s, WriteNext(i)) && k < |s.jobs| && k != i
    ensures InForce(Apply(s, WriteNext(i)), k)
  {
    var t := Apply(s, WriteNext(i));
    var w, j := s.jobs[i], s.jobs[k];
    assert JobOk(s, i) && JobOk(s, k);
    if j.phase.Done? && j.pod == w.pod {
      var st := w.phase.todo[0];
      var before, now := s.pods[w.pod], t.pods[w.pod];
      StepFrame(before, w, st, None);
      forall key | Aims(now, j, key) && !Superseded(t, k, key)
        ensures SameLimit(Limit(now.container, key), j.req.Value()) && SameLimit(Limit(now.pod, key), j.req.Value())
      {
        SupersededSame(s, t, k, key);
        StepFrame(before, w, st, key);
        assert Aims(before, j, key);
        assert now.container == now.At(Container) && now.pod == now.At(Pod);
        if w.Touches(key) {
          assert SharesLimit(w, j);
          assert SameLimit(w.req.Value(), j.req.Value());
        }
      }
    } else if j.phase.Done? {
      forall key
        ensures Superseded(s, k, key) <==> Superseded(t, k, key)
      {
        SupersededSame(s, t, k, key);
      }
    }
  }

  /** Being prepared does not depend on the phase. */
  lemma SamePrepared(a: Job, b: Job)
    requires a.pod == b.pod && a.req == b.req
    ensures forall s, sides :: Prepared(s, a, sides) <==> Prepared(s, b, sides)
    ensures forall todo :: StepsOfJob(todo, a) <==> StepsOfJob(todo, b)
  {
    forall s, key
      ensures Aims(s, a, key) <==> Aims(s, b, key)
    {}
  }

  lemma {:induction false} WriteKeepsOther(s: Sys, i: nat, k: nat)
    requires Inv(s) && CanRun(s, WriteNext(i)) && k < |s.jobs| && k != i
    ensures JobOk(Apply(s, WriteNext(i)), k)
  {
    var w, j := s.jobs[i], s.jobs[k];
    assert JobOk(s, i) && JobOk(s, k);
    WriteKeepsInForce(s, i, k);
    if j.phase.Writing? && j.pod == w.pod {
      assert SharesLimit(w, j) <==> SharesLimit(j, w);
      OthersStepKeepsPrepared(s.pods[w.pod], w, w.phase.todo[0], j, RuntimeSides(j.phase.todo));
    }
  }

  lemma {:induction false} WriteKeepsWriter(s: Sys, i: nat)
    requires Inv(s) && CanRun(s, WriteNext(i))
    ensures JobOk(Apply(s, WriteNext(i)), i)
  {
    var w := s.jobs[i];
    assert JobOk(s, i);
    var rest := w.phase.todo[1..];
    StepKeepsPair(s.pods[w.pod], w, w.phase.todo);
    var now := Apply(s, WriteNext(i)).jobs[i];
    SamePrepared(w, now);
    if rest == [] {
      var pair := Exec(s.pods[w.pod], w.phase.todo[0]);
      assert Prepared(pair, now, []);
      assert pair.container == pair.At(Container) && pair.pod == pair.At(Pod);
    }
  }

  /** No request in flight has appeared or changed its aim. */
  lemma ExclusiveSame(s: Sys, t: Sys)
    requires Exclusive(s) && |t.jobs| == |s.jobs|
    requires forall k :: 0 <= k < |s.jobs| ==>
               t.jobs[k].pod == s.jobs[k].pod && t.jobs[k].req == s.jobs[k].req &&
               (t.jobs[k].InFlight() ==> s.jobs[k].InFlight())
    ensures Exclusive(t)
  {
    forall i, k | 0 <= i < k < |t.jobs| && t.jobs[i].InFlight() && SharesLimit(t.jobs[i], t.jobs[k])
      ensures SameLimit(t.jobs[i].req.Value(), t.jobs[k].req.Value())
    {
      var key :| t.jobs[i].Touches(key) && t.jobs[k].Touches(key);
      assert s.jobs[i].Touches(key) && s.jobs[k].Touches(key);
      assert SharesLimit(s.jobs[i], s.jobs[k]);
    }
  }

  lemma {:induction false} WriteKeepsInv(s: Sys, i: nat)
    requires Inv(s) && CanRun(s, WriteNext(i))
    ensures Inv(Apply(s, WriteNext(i)))
  {
    var t := Apply(s, WriteNext(i));
    assert JobOk(s, i);
    StepKeepsPair(s.pods[s.jobs[i].pod], s.jobs[i], s.jobs[i].phase.todo);
    forall k | 0 <= k < |t.jobs|
      ensures JobOk(t, k)
    {
      if k == i {
        WriteKeepsWriter(s, i);
      } else {
        WriteKeepsOther(s, i, k);
      }
    }
    ExclusiveSame(s, t);
  }

  // ---- Reads, arrivals, failures -------------------------------------------

  lemma {:induction false} SidesOf(a: seq<Step>, b: seq<Step>)
    ensures RuntimeSides(a + b) == RuntimeSides(a) + RuntimeSides(b)
    decreases |a|
  {
    if a == [] {
      assert a + b == b;
    } else {
      var head := if a[0].payload.Runtime? || a[0].payload.Multi? then [a[0].side] else [];
      assert (a + b)[1..] == a[1..] + b && (a + b)[0] == a[0];
      SidesOf(a[1..], b);
      assert RuntimeSides(a + b) == head + (RuntimeSides(a[1..]) + RuntimeSides(b));
      assert RuntimeSides(a) == head + RuntimeSides(a[1..]);
    }
  }

  lemma GroupSides(side: Side, req: Request, decreasing: bool)
    ensures RuntimeSides(GroupSteps(side, req, decreasing)) == [side]
  {
    var steps := GroupSteps(side, req, decreasing);
    assert RuntimeSides(steps[2..]) == [];
    assert steps[1..][1..] == steps[2..];
    assert RuntimeSides(steps[1..]) == if decreasing then [] else [side];
  }

  lemma PlannedSides(req: Request, decreasing: bool, j: Job)
    requires j.req == req
    ensures var steps := if req.onlyRuntime then EscalationSteps(req.runtime, req.core, decreasing)
                         else NormalSteps(req, decreasing);
            && StepsOfJob(steps, j)
            && RuntimeSides(steps) == if decreasing then [Container, Pod] else [Pod, Container]
  {
    if req.onlyRuntime {
      var steps := EscalationSteps(req.runtime, req.core, decreasing);
      SidesOf(steps[..1], steps[1..]);
    } else {
      var x := if decreasing then Container else Pod;
      var y := if decreasing then Pod else Container;
      SidesOf(GroupSteps(x, req, decreasing), GroupSteps(y, req, decreasing));
      GroupSides(x, req, decreasing);
      GroupSides(y, req, decreasing);
    }
  }

  lemma {:induction false} SameJobOk(s: Sys, t: Sys, i: nat, k: nat)
    requires i < |s.jobs| == |t.jobs| && k < |s.jobs| && JobOk(s, k) && t.pods == s.pods
    requires t == s.(jobs := s.jobs[i := s.jobs[i].(phase := t.jobs[i].phase)]) && !t.jobs[i].phase.Done?
    requires t.jobs[i].phase.Writing? ==>
               t.jobs[i].pod in t.pods && StepsOfJob(t.jobs[i].phase.todo, s.jobs[i]) &&
               Prepared(t.pods[t.jobs[i].pod], s.jobs[i], RuntimeSides(t.jobs[i].phase.todo))
    ensures JobOk(t, k)
  {
    forall key
      ensures Superseded(s, k, key) <==> Superseded(t, k, key)
    {
      SupersededSame(s, t, k, key);
    }
    if k == i {
      SamePrepared(t.jobs[i], s.jobs[i]);
    }
  }

  lemma {:induction false} PhaseChangeKeeps(s: Sys, i: nat, phase: Phase)
    requires Inv(s) && i < |s.jobs| && s.jobs[i].InFlight() && (phase.Writing? || phase.Failed?)
    requires s.jobs[i].pod in s.pods
    requires phase.Writing? ==>
               StepsOfJob(phase.todo, s.jobs[i]) && Prepared(s.pods[s.jobs[i].pod], s.jobs[i], RuntimeSides(phase.todo))
    ensures Inv(s.(jobs := s.jobs[i := s.jobs[i].(phase := phase)]))
  {
    var t := s.(jobs := s.jobs[i := s.jobs[i].(phase := phase)]);
    forall k | 0 <= k < |t.jobs|
      ensures JobOk(t, k)
    {
      assert JobOk(s, k);
      SameJobOk(s, t, i, k);
    }
    ExclusiveSame(s, t);
  }

  lemma {:induction false} ArrivalKeepsInv(s: Sys, j: Job)
    requires Inv(s) && Enabled(s, Arrive(j))
    ensures Inv(Apply(s, Arrive(j)))
  {
    var t := Apply(s, Arrive(j));
    forall k | 0 <= k < |t.jobs|
      ensures JobOk(t, k)
    {
      if k < |s.jobs| {
        assert JobOk(s, k);
        forall key | Superseded(s, k, key)
          ensures Superseded(t, k, key)
        {
          var m :| k < m < |s.jobs| && s.jobs[m].pod == s.jobs[k].pod && s.jobs[m].Touches(key) &&
                   !SameLimit(s.jobs[m].req.Value(), s.jobs[k].req.Value());
          assert t.jobs[m] == s.jobs[m];
        }
      }
    }
  }

  /** Every arrival, read, write and failure keeps the invariant. */
  lemma {:induction false} StepKeepsInv(s: Sys, e: Event)
    requires Inv(s) && Enabled(s, e)
    ensures Inv(Apply(s, e))
  {
    match e
    case Arrive(j) => ArrivalKeepsInv(s, j);
    case Read(i, seen, u) =>
      var j := s.jobs[i];
      PlannedSides(j.req, Decreasing(seen, j.req, u), j);
      PhaseChangeKeeps(s, i, Writing(StepsFor(seen, j.req, u)));
    case WriteNext(i) => WriteKeepsInv(s, i);
    case Fail(i) =>
      assert JobOk(s, i);
      PhaseChangeKeeps(s, i, Failed);
  }

  // ---- Whole runs ----------------------------------------------------------

  /** The state after these events, if each of them could run. */
  ghost function Reach(s: Sys, events: seq<Event>): Option<Sys> {
    if events == [] then Some(s)
    else
      var n := |events| - 1;
      var t := Reach(s, events[..n]);
      if t.Some? && CanRun(t.value, events[n]) then Some(Apply(t.value, events[n])) else None
  }

  /** Every event is enabled when it happens. */
  ghost predicate Disciplined(s: Sys, events: seq<Event>) {
    events == [] ||
    (var n := |events| - 1;
     && Disciplined(s, events[..n])
     && (Reach(s, events[..n]).Some? ==> Enabled(Reach(s, events[..n]).value, events[n])))
  }

  lemma {:induction false} InvHolds(s: Sys, events: seq<Event>)
    requires Inv(s) && Disciplined(s, events) && Reach(s, events).Some?
    ensures Inv(Reach(s, events).value)
    decreases |events|
  {
    if events != [] {
      var n := |events| - 1;
      InvHolds(s, events[..n]);
      StepKeepsInv(Reach(s, events[..n]).value, events[n]);
    }
  }

  /** From an ordered start, in every interleaving of any requests and with any failures: if requests in flight for
      one limit agree on its value and each found its condition when it read, then no container limit ever exceeds
      its pod's, and every completed request is in force on both sides. */
  lemma InterleavingSafety(s: Sys, events: seq<Event>)
    requires Safe(s) && s.jobs == [] && Disciplined(s, events) && Reach(s, events).Some?
    ensures var t := Reach(s, events).value;
            Safe(t) && forall i :: 0 <= i < |t.jobs| ==> InForce(t, i)
  {
    InvHolds(s, events);
    var t := Reach(s, events).value;
    forall i | 0 <= i < |t.jobs|
      ensures InForce(t, i)
    {
      assert JobOk(t, i);
    }
  }

  // ---- The condition at the read -------------------------------------------

  lemma ReadFitsIsLimitFits(s: Pair, j: Job, seen: Group, unreadable: Unreadable)
    requires |s.container.multi| == |s.pod.multi|
    ensures ReadFits(s, j, seen, unreadable) <==>
            LimitFits(s, j.req.Value(), j.req.core, Decreasing(seen, j.req, unreadable))
  {
    if j.req.core.Some? {
      forall i | 0 <= i < |s.container.multi|
        ensures Aims(s, j, Some(i)) <==> j.req.core.value.Touches(i)
        ensures Limit(s.container, Some(i)) == s.container.multi[i] && Limit(s.pod, Some(i)) == s.pod.multi[i]
      {}
    } else {
      assert Aims(s, j, None);
    }
  }

  lemma PairOkIsOrdered(s: Pair, core: Option<Core>)
    requires PairOk(s)
    ensures Ordered(s, core)
  {
    assert Fits(s, None);
    assert Limit(s.container, None) == s.container.runtime && Limit(s.pod, None) == s.pod.runtime;
    forall i | 0 <= i < |s.container.multi|
      ensures Within(s.container.multi[i], s.pod.multi[i])
    {
      assert Fits(s, Some(i));
      assert Limit(s.container, Some(i)) == s.container.multi[i] && Limit(s.pod, Some(i)) == s.pod.multi[i];
    }
  }

  /** It cannot be weakened: a request that does not find it breaks the order even when nothing else runs from then
      on. */
  lemma ReadConditionExact(s: Pair, j: Job, seen: Group, unreadable: Unreadable)
    requires PairOk(s) && CoreFits(s, j.req.core)
    ensures ReadFits(s, j, seen, unreadable) <==>
            NeverBroken(s, StepsFor(seen, j.req, unreadable), OrderedFor(j.req.core))
  {
    ReadFitsIsLimitFits(s, j, seen, unreadable);
    PairOkIsOrdered(s, j.req.core);
    DirectionExact(s, j.req, Decreasing(seen, j.req, unreadable));
  }

  /** An escalation for no core or one index always finds it, if the per-core file can be read. */
  lemma EscalationReads(s: Pair, j: Job, seen: Group, unreadable: Unreadable)
    requires PairOk(s) && j.req.onlyRuntime && Current(s.pod, seen, j.req.core)
    requires j.req.core.Some? ==> j.req.core.value.Index? && (Pod, MultiRuntimeFile) !in unreadable
    ensures ReadFits(s, j, seen, unreadable)
  {
    forall key | Aims(s, j, key)
      ensures key == match j.req.core case None => None case Some(c) => Some(c.k)
      ensures Within(Limit(s.container, key), Limit(s.pod, key))
    {}
  }

  /** A normal-mode request for one readable core finds it unless it raises that core's limited runtime while its
      period or global runtime is lower than the one it has seen. */
  lemma CoreRequestReads(s: Pair, j: Job, seen: Group, unreadable: Unreadable)
    requires PairOk(s) && !j.req.onlyRuntime && 0 <= j.req.runtime
    requires j.req.core.Some? && j.req.core.value.Index? && CoreFits(s, j.req.core)
    requires (Pod, MultiRuntimeFile) !in unreadable && Current(s.pod, seen, j.req.core)
    ensures var k := j.req.core.value.k;
            ReadFits(s, j, seen, unreadable) <==>
            !(0 <= s.pod.multi[k] < j.req.runtime &&
              (j.req.period < seen.period || !Within(seen.runtime, j.req.runtime)))
  {
    ReadFitsIsLimitFits(s, j, seen, unreadable);
    PairOkIsOrdered(s, j.req.core);
    assert j.req.core.value.Touches(j.req.core.value.k);
  }

  predicate PlainEscalation(j: Job) {
    j.req.onlyRuntime && (j.req.core.Some? ==> j.req.core.value.Index?)
  }

  /** Only such escalations arrive, and the per-core files can be read. */
  ghost predicate PlainEscalations(events: seq<Event>) {
    forall i :: 0 <= i < |events| ==>
      && (events[i].Arrive? ==> PlainEscalation(events[i].job))
      && (events[i].Read? ==> (Pod, MultiRuntimeFile) !in events[i].unreadable)
  }

  /** Requests in flight for one limit agree, at every arrival. */
  ghost predicate Agreeing(s: Sys, events: seq<Event>) {
    events == [] ||
    (var n := |events| - 1;
     var t := Reach(s, events[..n]);
     && Agreeing(s, events[..n])
     && (t.Some? && events[n].Arrive? ==>
          forall i :: 0 <= i < |t.value.jobs| && t.value.jobs[i].InFlight() &&
                      SharesLimit(t.value.jobs[i], events[n].job) ==>
            SameLimit(t.value.jobs[i].req.Value(), events[n].job.req.Value())))
  }

  lemma {:induction false} PlainRunDisciplined(s: Sys, events: seq<Event>)
    requires Inv(s) && s.jobs == [] && PlainEscalations(events) && Agreeing(s, events) && Reach(s, events).Some?
    ensures Disciplined(s, events)
    ensures forall i :: 0 <= i < |Reach(s, events).value.jobs| ==> PlainEscalation(Reach(s, events).value.jobs[i])
    decreases |events|
  {
    if events != [] {
      var n := |events| - 1;
      PlainRunDisciplined(s, events[..n]);
      InvHolds(s, events[..n]);
      var t, e := Reach(s, events[..n]).value, events[n];
      if e.Read? {
        EscalationReads(t.pods[t.jobs[e.i].pod], t.jobs[e.i], e.seen, e.unreadable);
      }
      assert Enabled(t, e);
    }
  }

  /** For these escalations agreement is all that is needed. */
  lemma EscalationSafety(s: Sys, events: seq<Event>)
    requires Safe(s) && s.jobs == [] && PlainEscalations(events) && Agreeing(s, events) && Reach(s, events).Some?
    ensures var t := Reach(s, events).value;
            Safe(t) && forall i :: 0 <= i < |t.jobs| ==> InForce(t, i)
  {
    PlainRunDisciplined(s, events);
    InterleavingSafety(s, events);
  }
}
