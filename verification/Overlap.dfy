/** What happens when two requests for the same limit overlap, in either mode and from any ordered state. */
module Overlap {
  import opened Wrappers
  import opened CgroupFiles
  import opened WriteSequences
  import opened WriteOrder
  import opened Interleaving

  /** A request for one limit: the global runtime, or one core's. */
  predicate For(j: Job, key: Option<int>) {
    j.phase.Fresh? && j.req.core == if key.Some? then Some(Index(key.value)) else None
  }

  // ---- Runs of two requests ------------------------------------------------

  /** What the pod's files have shown so far. */
  ghost function Shown(s: Sys, events: seq<Event>, pod: PodId): set<Group> {
    var t := Reach(s, events);
    (if t.Some? && pod in t.value.pods then {t.value.pods[pod].pod} else {}) +
    (if events == [] then {} else Shown(s, events[..|events| - 1], pod))
  }

  /** Nothing arrives but these two requests. All files can be read, one after the other, so a period or a runtime
      may be out of date when the limit itself is read. */
  ghost predicate Allowed(s: Sys, events: seq<Event>, e: Event, a: Job, b: Job) {
    && (e.Arrive? ==> e.job in {a, b})
    && (e.Read? ==>
         && e.unreadable == {}
         && (exists g :: g in Shown(s, events, a.pod) && g.period == e.seen.period)
         && (exists g :: g in Shown(s, events, a.pod) && g.runtime == e.seen.runtime))
  }

  ghost predicate OnlyRequests(s: Sys, events: seq<Event>, a: Job, b: Job) {
    events == [] ||
    (var n := |events| - 1;
     OnlyRequests(s, events[..n], a, b) && Allowed(s, events[..n], events[n], a, b))
  }

  ghost predicate Leads(s: Sys, events: seq<Event>, t: Sys, a: Job, b: Job) {
    Reach(s, events) == Some(t) && OnlyRequests(s, events, a, b)
  }

  /** Some overlap of the two requests, each sent any number of times, lets a container exceed its pod. */
  ghost predicate CanBreak(s: Sys, a: Job, b: Job) {
    exists events, t :: Leads(s, events, t, a, b) && !Safe(t)
  }

  // ---- Single limits -------------------------------------------------------

  /** A read that finds these limits, and then chooses this direction, is safe. */
  predicate ReadOk(c: int, d: int, value: int, decreasing: bool) {
    if decreasing then Within(value, d) else Within(c, value)
  }

  lemma KeyFits(s: Pair, j: Job, key: Option<int>)
    requires For(j, key) && Fits(s, key)
    ensures FitsPod(s, j) <==> Within(j.req.Value(), Limit(s.pod, key))
    ensures FitsContainer(s, j) <==> Within(Limit(s.container, key), j.req.Value())
    ensures forall side :: SetOn(s, side, j) ==> SameLimit(Limit(s.At(side), key), j.req.Value())
  {
    assert Aims(s, j, key);
    forall other | Aims(s, j, other)
      ensures other == key
    {}
  }

  /** Apart from the limit itself, what makes a request count as lowering. */
  predicate LowersElse(req: Request, seen: Group) {
    !req.onlyRuntime && (req.period < seen.period || (req.core.Some? && !Within(seen.runtime, req.runtime)))
  }

  lemma Direction(s: Pair, j: Job, key: Option<int>, seen: Group)
    requires For(j, key) && Fits(s, key) && |s.container.multi| == |s.pod.multi|
    requires Current(s.pod, seen, j.req.core)
    ensures Decreasing(seen, j.req, {}) <==>
            !Within(Limit(s.pod, key), j.req.runtime) || LowersElse(j.req, seen)
  {}

  // ---- Requests that agree -------------------------------------------------

  /** Two normal-mode requests for different periods. */
  predicate PeriodsDiffer(a: Job, b: Job) {
    !a.req.onlyRuntime && !b.req.onlyRuntime && a.req.period != b.req.period
  }

  /** Whatever the request reads now, it finds its condition. */
  ghost predicate Ready(s: Pair, j: Job, key: Option<int>, shown: set<Group>) {
    forall g :: g in shown ==>
      && (j.req.core.Some? ==> g.runtime == s.pod.runtime)
      && ReadOk(Limit(s.container, key), Limit(s.pod, key), j.req.Value(),
                !Within(Limit(s.pod, key), j.req.runtime) || LowersElse(j.req, s.pod.(period := g.period)))
  }

  /** All period writes are the request's own, and once it writes the pod its container is no longer to come first. */
  ghost predicate Orderly(todo: seq<Step>, req: Request)
    decreases |todo|
  {
    todo == [] ||
    (&& (todo[0].payload.Period? ==> !req.onlyRuntime && todo[0].payload.value == req.period)
     && (todo[0].side.Pod? ==> RuntimeSides(todo) != [Container, Pod])
     && Orderly(todo[1..], req))
  }

  ghost predicate Agree(a: Job, b: Job, key: Option<int>) {
    For(a, key) && For(b, key) && a.pod == b.pod && SameLimit(a.req.Value(), b.req.Value())
  }

  ghost predicate CalmPair(s: Pair, a: Job, b: Job, key: Option<int>, shown: set<Group>) {
    && PairOk(s) && Fits(s, key) && s.pod in shown
    && Ready(s, a, key, shown) && Ready(s, b, key, shown)
    && (PeriodsDiffer(a, b) ==> Within(a.req.Value(), Limit(s.pod, key)))
  }

  /** A request about to write the pod has a container that fits its limit. */
  lemma {:induction false} PodWriteFits(s: Pair, w: Job, key: Option<int>, todo: seq<Step>)
    requires For(w, key) && PairOk(s) && Fits(s, key) && todo != [] && todo[0].side.Pod?
    requires Orderly(todo, w.req) && Prepared(s, w, RuntimeSides(todo))
    ensures Within(Limit(s.container, key), w.req.Value())
  {
    KeyFits(s, w, key);
    assert s.container == s.At(Container) && s.pod == s.At(Pod);
    assert Within(Limit(s.container, key), Limit(s.pod, key));
  }

  /** What one write by `w` does to the limit and to the values that directions depend on. */
  lemma {:induction false} WriteEffect(s: Pair, w: Job, todo: seq<Step>, key: Option<int>)
    requires For(w, key) && PairOk(s) && Fits(s, key) && todo != []
    requires StepsOfJob(todo, w) && Orderly(todo, w.req) && Prepared(s, w, RuntimeSides(todo))
    requires Admissible(s.At(todo[0].side), todo[0].payload)
    ensures var t := Exec(s, todo[0]);
            var c, d, c', d' := Limit(s.container, key), Limit(s.pod, key), Limit(t.container, key), Limit(t.pod, key);
            && (key.Some? ==> t.pod.runtime == s.pod.runtime)
            && (t.pod.period == s.pod.period ||
                (t.pod.period == w.req.period && !w.req.onlyRuntime && c' == c && d' == d && Within(c, w.req.Value())))
            && ((c' == c && d' == d) || (c' == w.req.Value() && d' == d) ||
                (c' == c && d' == w.req.Value() && Within(c, w.req.Value())))
  {
    StepFrame(s, w, todo[0], key);
    var t := Exec(s, todo[0]);
    assert s.container == s.At(Container) && s.pod == s.At(Pod) && t.container == t.At(Container) && t.pod == t.At(Pod);
    if todo[0].side.Pod? {
      PodWriteFits(s, w, key, todo);
    }
  }

  /** One write, as seen by either request. */
  lemma {:induction false} WriteKeepsReady(s: Pair, w: Job, todo: seq<Step>, a: Job, b: Job, j: Job,
                                           key: Option<int>, shown: set<Group>)
    requires Agree(a, b, key) && w in {a, b} && j in {a, b} && CalmPair(s, a, b, key, shown)
    requires todo != [] && StepsOfJob(todo, w) && Orderly(todo, w.req) && Prepared(s, w, RuntimeSides(todo))
    requires Admissible(s.At(todo[0].side), todo[0].payload)
    ensures var t := Exec(s, todo[0]); Ready(t, j, key, shown + {t.pod})
  {
    WriteEffect(s, w, todo, key);
  }

  lemma {:induction false} WriteKeepsCalm(s: Pair, w: Job, todo: seq<Step>, a: Job, b: Job,
                                          key: Option<int>, shown: set<Group>)
    requires Agree(a, b, key) && w in {a, b} && CalmPair(s, a, b, key, shown)
    requires todo != [] && StepsOfJob(todo, w) && Orderly(todo, w.req) && Prepared(s, w, RuntimeSides(todo))
    requires Admissible(s.At(todo[0].side), todo[0].payload)
    ensures var t := Exec(s, todo[0]); CalmPair(t, a, b, key, shown + {t.pod})
  {
    var t := Exec(s, todo[0]);
    StepKeepsPair(s, w, todo);
    WriteKeepsReady(s, w, todo, a, b, a, key, shown);
    WriteKeepsReady(s, w, todo, a, b, b, key, shown);
    StepFrame(s, w, todo[0], key);
    assert s.pod == s.At(Pod) && t.pod == t.At(Pod);
  }

  /** Every job is one of the two requests. */
  ghost predicate Ours(j: Job, a: Job, b: Job) {
    && j.pod == a.pod && (j.req == a.req || j.req == b.req)
    && (j.phase.Writing? ==> Orderly(j.phase.todo, j.req))
  }

  ghost predicate Calm(t: Sys, a: Job, b: Job, key: Option<int>, shown: set<Group>) {
    && Inv(t) && a.pod in t.pods && CalmPair(t.pods[a.pod], a, b, key, shown)
    && forall i :: 0 <= i < |t.jobs| ==> Ours(t.jobs[i], a, b)
  }

  lemma {:induction false} Prepend(a: seq<Step>, b: seq<Step>, req: Request)
    requires Orderly(b, req)
    requires forall st :: st in a && st.payload.Period? ==> !req.onlyRuntime && st.payload.value == req.period
    requires || (forall st :: st in a ==> st.side.Container?)
             || RuntimeSides(b) == [Container] || |RuntimeSides(a + b)| < 2
    ensures Orderly(a + b, req)
    decreases |a|
  {
    if a == [] {
      assert a + b == b;
    } else {
      assert (a + b)[1..] == a[1..] + b && (a + b)[0] == a[0];
      SidesOf(a, b);
      Prepend(a[1..], b, req);
      if RuntimeSides(b) == [Container] {
        assert RuntimeSides(a + b)[|RuntimeSides(a)|] == Container;
        assert RuntimeSides(a + b) != [Container, Pod];
      }
      assert a[0] in a;
    }
  }

  lemma GroupOrderly(side: Side, req: Request, decreasing: bool)
    requires !req.onlyRuntime
    ensures Orderly(GroupSteps(side, req, decreasing), req)
    ensures forall st :: st in GroupSteps(side, req, decreasing) ==>
              st.side == side && (st.payload.Period? ==> st.payload.value == req.period)
  {
    var steps := GroupSteps(side, req, decreasing);
    GroupSides(side, req, decreasing);
    assert steps + [] == steps;
    Prepend(steps, [], req);
  }

  lemma PlanOrderly(req: Request, decreasing: bool)
    ensures Orderly(StepsIn(req, decreasing), req)
  {
    if req.onlyRuntime {
      var steps := StepsIn(req, decreasing);
      assert steps == [steps[0]] + ([steps[1]] + []);
      Prepend([steps[1]], [], req);
      Prepend([steps[0]], [steps[1]], req);
    } else {
      var x, y := if decreasing then Container else Pod, if decreasing then Pod else Container;
      GroupOrderly(x, req, decreasing);
      GroupOrderly(y, req, decreasing);
      GroupSides(y, req, decreasing);
      Prepend(GroupSteps(x, req, decreasing), GroupSteps(y, req, decreasing), req);
    }
  }

  /** Requests of one kind agree wherever they share a limit. */
  lemma ArrivalEnabled(t: Sys, a: Job, b: Job, key: Option<int>, shown: set<Group>, j: Job)
    requires Agree(a, b, key) && Calm(t, a, b, key, shown) && CanRun(t, Arrive(j)) && j in {a, b}
    ensures Enabled(t, Arrive(j))
  {
    assert forall i :: 0 <= i < |t.jobs| ==> Ours(t.jobs[i], a, b);
  }

  lemma ReadEnabled(t: Sys, a: Job, b: Job, key: Option<int>, shown: set<Group>, i: nat, seen: Group)
    requires Agree(a, b, key) && Calm(t, a, b, key, shown) && CanRun(t, Read(i, seen, {}))
    requires exists g :: g in shown && g.period == seen.period
    requires exists g :: g in shown && g.runtime == seen.runtime
    ensures Enabled(t, Read(i, seen, {}))
  {
    var j := t.jobs[i];
    assert Ours(j, a, b) && j in {a, b};
    var pair := t.pods[a.pod];
    KeyFits(pair, j, key);
    Direction(pair, j, key, seen);
    var g :| g in shown && g.period == seen.period;
    var h :| h in shown && h.runtime == seen.runtime;
    assert Ready(pair, j, key, shown);
    assert j.req.core.Some? ==> h.runtime == pair.pod.runtime;
    assert LowersElse(j.req, seen) <==> LowersElse(j.req, pair.pod.(period := g.period));
  }

  lemma {:induction false} WriteCalm(t: Sys, a: Job, b: Job, key: Option<int>, shown: set<Group>, i: nat)
    requires Agree(a, b, key) && Calm(t, a, b, key, shown) && CanRun(t, WriteNext(i))
    ensures var u := Apply(t, WriteNext(i)); Calm(u, a, b, key, shown + {u.pods[a.pod].pod})
  {
    var u := Apply(t, WriteNext(i));
    var w := t.jobs[i];
    assert Ours(w, a, b) && JobOk(t, i);
    StepKeepsInv(t, WriteNext(i));
    var base := w.(phase := Fresh);
    assert base in {a, b};
    SamePrepared(w, base);
    WriteKeepsCalm(t.pods[a.pod], base, w.phase.todo, a, b, key, shown);
    forall k | 0 <= k < |u.jobs|
      ensures Ours(u.jobs[k], a, b)
    {
      assert Ours(t.jobs[k], a, b);
    }
  }

  lemma {:induction false} OtherCalm(t: Sys, e: Event, a: Job, b: Job, key: Option<int>, shown: set<Group>)
    requires Agree(a, b, key) && Calm(t, a, b, key, shown) && Enabled(t, e) && !e.WriteNext?
    requires e.Arrive? ==> e.job in {a, b}
    ensures Calm(Apply(t, e), a, b, key, shown)
  {
    var u := Apply(t, e);
    StepKeepsInv(t, e);
    forall k | 0 <= k < |u.jobs|
      ensures Ours(u.jobs[k], a, b)
    {
      if k < |t.jobs| {
        assert Ours(t.jobs[k], a, b);
        if e.Read? && k == e.i {
          PlanOrderly(u.jobs[k].req, Decreasing(e.seen, u.jobs[k].req, e.unreadable));
        }
      }
    }
  }

  lemma ShownStep(s: Sys, events: seq<Event>, t: Sys, e: Event, pod: PodId)
    requires Reach(s, events) == Some(t) && CanRun(t, e) && pod in t.pods
    ensures var u := Apply(t, e);
            && Reach(s, events + [e]) == Some(u) && pod in u.pods
            && Shown(s, events + [e], pod) == Shown(s, events, pod) + {u.pods[pod].pod}
  {
    assert (events + [e])[..|events|] == events;
  }

  lemma {:induction false} RunCalm(s: Sys, events: seq<Event>, t: Sys, a: Job, b: Job, key: Option<int>)
    requires Agree(a, b, key) && a.pod in s.pods && Calm(s, a, b, key, {s.pods[a.pod].pod}) && Leads(s, events, t, a, b)
    ensures Calm(t, a, b, key, Shown(s, events, a.pod))
    decreases |events|
  {
    if events != [] {
      var n := |events| - 1;
      var init, e := events[..n], events[n];
      assert events == init + [e];
      var u := Reach(s, init).value;
      RunCalm(s, init, u, a, b, key);
      ShownStep(s, init, u, e, a.pod);
      var shown := Shown(s, init, a.pod);
      match e
      case Arrive(j) =>
        ArrivalEnabled(u, a, b, key, shown, j);
        OtherCalm(u, e, a, b, key, shown);
      case Read(i, seen, _) =>
        ReadEnabled(u, a, b, key, shown, i, seen);
        OtherCalm(u, e, a, b, key, shown);
      case WriteNext(i) => WriteCalm(u, a, b, key, shown, i);
      case Fail(i) => OtherCalm(u, e, a, b, key, shown);
      assert u.pods[a.pod].pod in shown;
      if !e.WriteNext? {
        assert shown + {u.pods[a.pod].pod} == shown;
      }
    }
  }

  // ---- Requests that do not ------------------------------------------------

  /** How far a request has come: not read yet, or the sides whose runtime is still to be written. */
  ghost predicate Stands(j: Job, base: Job, left: Option<seq<Side>>) {
    && j.pod == base.pod && j.req == base.req
    && match left
       case None => j == base
       case Some(sides) =>
         if j.phase.Writing? then StepsOfJob(j.phase.todo, base) && RuntimeSides(j.phase.todo) == sides else sides == []
  }

  /** The requests `bases` are all there is; the limit stands at `c` for the container and `d` for the pod. */
  ghost predicate Stage(t: Sys, bases: seq<Job>, left: seq<Option<seq<Side>>>, pod: PodId, key: Option<int>,
                        c: int, d: int) {
    && |t.jobs| == |bases| == |left| && pod in t.pods
    && (forall i :: 0 <= i < |bases| ==>
         For(bases[i], key) && bases[i].pod == pod && Stands(t.jobs[i], bases[i], left[i]))
    && var pair := t.pods[pod];
       && |pair.container.multi| == |pair.pod.multi| && Fits(pair, key)
       && Limit(pair.container, key) == c && Limit(pair.pod, key) == d
  }

  lemma Then(s: Sys, events: seq<Event>, t: Sys, e: Event, a: Job, b: Job)
    requires Leads(s, events, t, a, b) && CanRun(t, e) && Allowed(s, events, e, a, b)
    ensures Leads(s, events + [e], Apply(t, e), a, b)
  {
    assert (events + [e])[..|events|] == events;
  }

  function Sides(decreasing: bool): seq<Side> {
    if decreasing then [Container, Pod] else [Pod, Container]
  }

  lemma OneArrival(s: Sys, events: seq<Event>, t: Sys, a: Job, b: Job, bases: seq<Job>, left: seq<Option<seq<Side>>>,
                   key: Option<int>, c: int, d: int, j: Job) returns (longer: seq<Event>, u: Sys)
    requires Leads(s, events, t, a, b) && Stage(t, bases, left, a.pod, key, c, d)
    requires j in {a, b} && For(j, key) && j.pod == a.pod
    ensures Leads(s, longer, u, a, b) && Stage(u, bases + [j], left + [None], a.pod, key, c, d)
    ensures u.pods == t.pods
  {
    Then(s, events, t, Arrive(j), a, b);
    longer, u := events + [Arrive(j)], Apply(t, Arrive(j));
  }

  /** Only request `i` has moved on, and nothing was written. */
  lemma StageMoves(t: Sys, u: Sys, bases: seq<Job>, left: seq<Option<seq<Side>>>, pod: PodId, key: Option<int>,
                   c: int, d: int, i: nat, now: Option<seq<Side>>)
    requires Stage(t, bases, left, pod, key, c, d) && i < |bases| == |u.jobs|
    requires u.pods == t.pods && u.jobs == t.jobs[i := u.jobs[i]] && Stands(u.jobs[i], bases[i], now)
    ensures Stage(u, bases, left[i := now], pod, key, c, d)
  {}

  lemma ReadStands(j: Job, seen: Group)
    ensures Stands(j.(phase := Writing(StepsFor(seen, j.req, {}))), j, Some(Sides(Decreasing(seen, j.req, {}))))
  {
    PlannedSides(j.req, Decreasing(seen, j.req, {}), j);
  }

  lemma ReadStage(t: Sys, bases: seq<Job>, left: seq<Option<seq<Side>>>, pod: PodId, key: Option<int>,
                  c: int, d: int, i: nat)
    requires Stage(t, bases, left, pod, key, c, d) && i < |bases| && left[i].None?
    ensures var e := Read(i, t.pods[pod].pod, {});
            var sides := Sides(Decreasing(t.pods[pod].pod, bases[i].req, {}));
            && CanRun(t, e)
            && Stage(Apply(t, e), bases, left[i := Some(sides)], pod, key, c, d)
            && Apply(t, e).jobs[i].phase == Writing(StepsFor(t.pods[pod].pod, bases[i].req, {}))
  {
    var seen := t.pods[pod].pod;
    var e := Read(i, seen, {});
    assert t.jobs[i] == bases[i] by {
      assert Stands(t.jobs[i], bases[i], left[i]);
    }
    assert CanRun(t, e);
    ReadStands(bases[i], seen);
    StageMoves(t, Apply(t, e), bases, left, pod, key, c, d, i, Some(Sides(Decreasing(seen, bases[i].req, {}))));
  }

  /** Request `i` reads, with nothing out of date. */
  lemma OneRead(s: Sys, events: seq<Event>, t: Sys, a: Job, b: Job, bases: seq<Job>, left: seq<Option<seq<Side>>>,
                key: Option<int>, c: int, d: int, i: nat) returns (longer: seq<Event>, u: Sys)
    requires Leads(s, events, t, a, b) && Stage(t, bases, left, a.pod, key, c, d) && i < |bases| && left[i].None?
    ensures var pod := t.pods[a.pod].pod;
            var sides := Sides(Decreasing(pod, bases[i].req, {}));
            && Leads(s, longer, u, a, b) && Stage(u, bases, left[i := Some(sides)], a.pod, key, c, d)
            && u.pods == t.pods && u.jobs[i].phase == Writing(StepsFor(pod, bases[i].req, {}))
  {
    var pod := t.pods[a.pod].pod;
    ReadStage(t, bases, left, a.pod, key, c, d, i);
    assert pod in Shown(s, events, a.pod);
    Then(s, events, t, Read(i, pod, {}), a, b);
    longer, u := events + [Read(i, pod, {})], Apply(t, Read(i, pod, {}));
  }

  lemma {:induction false} WriteStage(t: Sys, bases: seq<Job>, left: seq<Option<seq<Side>>>, pod: PodId,
                                      key: Option<int>, c: int, d: int, i: nat)
    requires Stage(t, bases, left, pod, key, c, d) && i < |bases|
    requires left[i].Some? && t.jobs[i].phase.Writing? && t.jobs[i].phase.todo != []
    ensures CanRun(t, WriteNext(i))
    ensures var todo := t.jobs[i].phase.todo;
            var v := bases[i].req.Value();
            var isLimit := todo[0].payload == bases[i].Payload();
            Stage(Apply(t, WriteNext(i)), bases, left[i := Some(RuntimeSides(todo[1..]))], pod, key,
                  if isLimit && todo[0].side.Container? then v else c, if isLimit && todo[0].side.Pod? then v else d)
  {
    var todo := t.jobs[i].phase.todo;
    assert Stands(t.jobs[i], bases[i], left[i]);
    var pair, now := t.pods[pod], Apply(t, WriteNext(i)).pods[pod];
    StepFrame(pair, bases[i], todo[0], key);
    assert pair.container == pair.At(Container) && pair.pod == pair.At(Pod);
    assert now.container == now.At(Container) && now.pod == now.At(Pod);
  }

  /** One step of request `i`, whatever it writes. */
  lemma {:induction false} OneStep(s: Sys, events: seq<Event>, t: Sys, a: Job, b: Job, bases: seq<Job>,
                                   left: seq<Option<seq<Side>>>, key: Option<int>, c: int, d: int, i: nat)
    returns (longer: seq<Event>, u: Sys)
    requires Leads(s, events, t, a, b) && Stage(t, bases, left, a.pod, key, c, d) && i < |bases|
    requires left[i].Some? && t.jobs[i].phase.Writing? && t.jobs[i].phase.todo != []
    ensures var todo := t.jobs[i].phase.todo;
            var v := bases[i].req.Value();
            var isLimit := todo[0].payload == bases[i].Payload();
            && Leads(s, longer, u, a, b) && CanRun(t, WriteNext(i)) && u == Apply(t, WriteNext(i))
            && Stage(u, bases, left[i := Some(RuntimeSides(todo[1..]))], a.pod, key,
                     if isLimit && todo[0].side.Container? then v else c, if isLimit && todo[0].side.Pod? then v else d)
  {
    WriteStage(t, bases, left, a.pod, key, c, d, i);
    Then(s, events, t, WriteNext(i), a, b);
    longer, u := events + [WriteNext(i)], Apply(t, WriteNext(i));
  }

  /** Request `i` goes on until it has written its next runtime. */
  lemma {:induction false} NextRuntime(s: Sys, events: seq<Event>, t: Sys, a: Job, b: Job, bases: seq<Job>,
                                       left: seq<Option<seq<Side>>>, key: Option<int>, c: int, d: int, i: nat)
    returns (longer: seq<Event>, u: Sys)
    requires Leads(s, events, t, a, b) && Stage(t, bases, left, a.pod, key, c, d) && i < |bases|
    requires left[i].Some? && left[i].value != []
    ensures var side, v := left[i].value[0], bases[i].req.Value();
            && Leads(s, longer, u, a, b)
            && Stage(u, bases, left[i := Some(left[i].value[1..])], a.pod, key,
                     if side.Container? then v else c, if side.Pod? then v else d)
    decreases if t.jobs[i].phase.Writing? then |t.jobs[i].phase.todo| else 0
  {
    assert Stands(t.jobs[i], bases[i], left[i]);
    var todo := t.jobs[i].phase.todo;
    longer, u := OneStep(s, events, t, a, b, bases, left, key, c, d, i);
    if todo[0].payload != bases[i].Payload() {
      assert RuntimeSides(todo) == RuntimeSides(todo[1..]);
      assert left[i := Some(RuntimeSides(todo[1..]))] == left;
      longer, u := NextRuntime(s, longer, u, a, b, bases, left, key, c, d, i);
    }
  }

  lemma StageBroken(s: Sys, events: seq<Event>, t: Sys, a: Job, b: Job, bases: seq<Job>,
                    left: seq<Option<seq<Side>>>, key: Option<int>, c: int, d: int)
    requires Leads(s, events, t, a, b) && Stage(t, bases, left, a.pod, key, c, d) && !Within(c, d)
    ensures CanBreak(s, a, b)
  {
    assert !PairOk(t.pods[a.pod]);
    assert Leads(s, events, t, a, b) && !Safe(t);
  }

  /** Two requests for one limit of one pod, before either arrives. */
  ghost predicate Start(s: Sys, a: Job, b: Job, key: Option<int>) {
    && Safe(s) && s.jobs == [] && a.pod in s.pods && Fits(s.pods[a.pod], key)
    && a.pod == b.pod && For(a, key) && For(b, key)
  }

  lemma BothArrive(s: Sys, a: Job, b: Job, key: Option<int>, first: Job, second: Job)
    returns (events: seq<Event>, t: Sys)
    requires Start(s, a, b, key) && first in {a, b} && second in {a, b}
    ensures var pair := s.pods[a.pod];
            && Leads(s, events, t, a, b) && t.pods == s.pods
            && Stage(t, [first, second], [None, None], a.pod, key, Limit(pair.container, key), Limit(pair.pod, key))
  {
    var pair := s.pods[a.pod];
    assert PairOk(pair);
    var c, d := Limit(pair.container, key), Limit(pair.pod, key);
    var unread: Option<seq<Side>> := None;
    assert Stage(s, [], [], a.pod, key, c, d);
    events, t := OneArrival(s, [], s, a, b, [], [], key, c, d, first);
    events, t := OneArrival(s, events, t, a, b, [] + [first], [] + [unread], key, c, d, second);
    assert [] + [first] + [second] == [first, second];
    assert [] + [unread] + [unread] == [unread, unread];
  }

  lemma BothRead(s: Sys, a: Job, b: Job, key: Option<int>, first: Job, second: Job)
    returns (events: seq<Event>, t: Sys)
    requires Start(s, a, b, key) && first in {a, b} && second in {a, b}
    ensures var pair := s.pods[a.pod];
            var sides := Sides(Decreasing(pair.pod, first.req, {}));
            var others := Sides(Decreasing(pair.pod, second.req, {}));
            && Leads(s, events, t, a, b)
            && Stage(t, [first, second], [Some(sides), Some(others)], a.pod, key,
                     Limit(pair.container, key), Limit(pair.pod, key))
  {
    var pair := s.pods[a.pod];
    var c, d := Limit(pair.container, key), Limit(pair.pod, key);
    var sides, others := Sides(Decreasing(pair.pod, first.req, {})), Sides(Decreasing(pair.pod, second.req, {}));
    var left: seq<Option<seq<Side>>> := [None, None];
    events, t := BothArrive(s, a, b, key, first, second);
    events, t := OneRead(s, events, t, a, b, [first, second], left, key, c, d, 0);
    events, t := OneRead(s, events, t, a, b, [first, second], left[0 := Some(sides)], key, c, d, 1);
    assert left[0 := Some(sides)][1 := Some(others)] == [Some(sides), Some(others)];
  }

  /** A request that does not find its condition breaks the order without any help. */
  lemma AloneBreaks(s: Sys, a: Job, b: Job, key: Option<int>, j: Job)
    requires Start(s, a, b, key) && j in {a, b} && !ReadFits(s.pods[a.pod], j, s.pods[a.pod].pod, {})
    ensures CanBreak(s, a, b)
  {
    var pair := s.pods[a.pod];
    var c, d, v := Limit(pair.container, key), Limit(pair.pod, key), j.req.Value();
    KeyFits(pair, j, key);
    var sides := Sides(Decreasing(pair.pod, j.req, {}));
    var events, t := BothArrive(s, a, b, key, j, j);
    events, t := OneRead(s, events, t, a, b, [j, j], [None, None], key, c, d, 0);
    var left := [None, None][0 := Some(sides)];
    events, t := NextRuntime(s, events, t, a, b, [j, j], left, key, c, d, 0);
    StageBroken(s, events, t, a, b, [j, j], left[0 := Some(sides[1..])], key,
                if sides[0].Container? then v else c, if sides[0].Pod? then v else d);
  }

  /** Both read at the start and go on until `x` comes to write the pod and `y` the container. */
  lemma BothTurn(s: Sys, a: Job, b: Job, key: Option<int>, x: Job, y: Job)
    returns (events: seq<Event>, t: Sys, left: seq<Option<seq<Side>>>, c: int, d: int)
    requires Start(s, a, b, key) && x in {a, b} && y in {a, b}
    ensures Leads(s, events, t, a, b) && Stage(t, [x, y], left, a.pod, key, c, d)
    ensures left[0].Some? && left[0].value != [] && left[0].value[0] == Pod
    ensures left[1].Some? && left[1].value != [] && left[1].value[0] == Container
  {
    var pair := s.pods[a.pod];
    c, d := Limit(pair.container, key), Limit(pair.pod, key);
    var lowersX, lowersY := Decreasing(pair.pod, x.req, {}), Decreasing(pair.pod, y.req, {});
    events, t := BothRead(s, a, b, key, x, y);
    left := [Some(Sides(lowersX)), Some(Sides(lowersY))];
    if !lowersY {
      events, t := NextRuntime(s, events, t, a, b, [x, y], left, key, c, d, 1);
      d, left := y.req.Value(), left[1 := Some(Sides(lowersY)[1..])];
    }
    if lowersX {
      events, t := NextRuntime(s, events, t, a, b, [x, y], left, key, c, d, 0);
      c, left := x.req.Value(), left[0 := Some(Sides(lowersX)[1..])];
    }
  }

  /** Then the tighter request `x` writes the pod right before the looser one, `y`, writes the container. */
  lemma LooserLast(s: Sys, a: Job, b: Job, key: Option<int>, x: Job, y: Job)
    requires Start(s, a, b, key) && x in {a, b} && y in {a, b} && !Within(y.req.Value(), x.req.Value())
    ensures CanBreak(s, a, b)
  {
    var events, t, left, c, d := BothTurn(s, a, b, key, x, y);
    events, t := NextRuntime(s, events, t, a, b, [x, y], left, key, c, d, 0);
    left := left[0 := Some(left[0].value[1..])];
    events, t := NextRuntime(s, events, t, a, b, [x, y], left, key, c, x.req.Value(), 1);
    left := left[1 := Some(left[1].value[1..])];
    StageBroken(s, events, t, a, b, [x, y], left, key, y.req.Value(), x.req.Value());
  }

  /** Both raise the limit to the same value: once `y` has written its longer period, `x` takes its own for a
      decrease and puts the container first. */
  lemma PeriodsBreak(s: Sys, a: Job, b: Job, key: Option<int>, x: Job, y: Job)
    requires Start(s, a, b, key) && x in {a, b} && y in {a, b}
    requires !x.req.onlyRuntime && !y.req.onlyRuntime && x.req.period < y.req.period
    requires !Within(x.req.Value(), Limit(s.pods[a.pod].pod, key))
    requires !Decreasing(s.pods[a.pod].pod, y.req, {})
    ensures CanBreak(s, a, b)
  {
    var pair := s.pods[a.pod];
    var c, d := Limit(pair.container, key), Limit(pair.pod, key);
    var bases := [y, x];
    var events, t := BothArrive(s, a, b, key, y, x);
    var left: seq<Option<seq<Side>>> := [None, None];
    events, t := OneRead(s, events, t, a, b, bases, left, key, c, d, 0);
    left := left[0 := Some(Sides(false))];
    var todo := t.jobs[0].phase.todo;
    assert todo == NormalSteps(y.req, false) && todo[0] == Step(Pod, Period(y.req.period));
    events, t := OneStep(s, events, t, a, b, bases, left, key, c, d, 0);
    left := left[0 := Some(RuntimeSides(todo[1..]))];
    assert t.pods[a.pod].pod.period == y.req.period;
    events, t := OneRead(s, events, t, a, b, bases, left, key, c, d, 1);
    left := left[1 := Some(Sides(true))];
    events, t := NextRuntime(s, events, t, a, b, bases, left, key, c, d, 1);
    StageBroken(s, events, t, a, b, bases, left[1 := Some(Sides(true)[1..])], key, x.req.Value(), d);
  }

  // ---- Exactly when --------------------------------------------------------

  /** Both find their condition at the start, agree on the limit, and agree on the period if they raise it. */
  ghost predicate Compatible(pair: Pair, a: Job, b: Job) {
    && SameLimit(a.req.Value(), b.req.Value())
    && ReadFits(pair, a, pair.pod, {}) && ReadFits(pair, b, pair.pod, {})
    && (PeriodsDiffer(a, b) ==> FitsPod(pair, a))
  }

  lemma CompatibleCalm(s: Sys, a: Job, b: Job, key: Option<int>)
    requires Start(s, a, b, key) && Compatible(s.pods[a.pod], a, b)
    ensures Calm(s, a, b, key, {s.pods[a.pod].pod})
  {
    var pair := s.pods[a.pod];
    KeyFits(pair, a, key);
    KeyFits(pair, b, key);
    Direction(pair, a, key, pair.pod);
    Direction(pair, b, key, pair.pod);
    assert pair.pod.(period := pair.pod.period) == pair.pod;
  }

  /** From every ordered state, two requests for one limit, each in either mode, can break the order by overlapping
      if and only if they are not compatible. */
  lemma OverlapExact(s: Sys, a: Job, b: Job, key: Option<int>)
    requires Start(s, a, b, key)
    ensures CanBreak(s, a, b) <==> !Compatible(s.pods[a.pod], a, b)
  {
    var pair := s.pods[a.pod];
    KeyFits(pair, a, key);
    KeyFits(pair, b, key);
    if Compatible(pair, a, b) {
      forall events, t | Leads(s, events, t, a, b)
        ensures Safe(t)
      {
        CompatibleCalm(s, a, b, key);
        RunCalm(s, events, t, a, b, key);
      }
    } else if !ReadFits(pair, a, pair.pod, {}) {
      AloneBreaks(s, a, b, key, a);
    } else if !ReadFits(pair, b, pair.pod, {}) {
      AloneBreaks(s, a, b, key, b);
    } else if !Within(b.req.Value(), a.req.Value()) {
      LooserLast(s, a, b, key, a, b);
    } else if !Within(a.req.Value(), b.req.Value()) {
      LooserLast(s, a, b, key, b, a);
    } else if a.req.period < b.req.period {
      PeriodsBreak(s, a, b, key, a, b);
    } else {
      PeriodsBreak(s, a, b, key, b, a);
    }
  }

  /** For escalations agreement on the limit is all. */
  lemma EscalationOverlapExact(s: Sys, a: Job, b: Job, key: Option<int>)
    requires Start(s, a, b, key) && a.req.onlyRuntime && b.req.onlyRuntime
    ensures CanBreak(s, a, b) <==> !SameLimit(a.req.runtime, b.req.runtime)
  {
    OverlapExact(s, a, b, key);
    EscalationReads(s.pods[a.pod], a, s.pods[a.pod].pod, {});
    EscalationReads(s.pods[a.pod], b, s.pods[a.pod].pod, {});
  }

  /** Without a core, normal-mode requests that raise a limited runtime also need the same period, and none below
      the pod's. */
  lemma NormalOverlapExact(s: Sys, a: Job, b: Job)
    requires Start(s, a, b, None) && !a.req.onlyRuntime && !b.req.onlyRuntime
    requires 0 <= a.req.runtime && 0 <= b.req.runtime
    ensures var pod := s.pods[a.pod].pod;
            CanBreak(s, a, b) <==>
            || a.req.runtime != b.req.runtime
            || (0 <= pod.runtime < a.req.runtime && !(pod.period <= a.req.period == b.req.period))
  {
    var pair := s.pods[a.pod];
    OverlapExact(s, a, b, None);
    KeyFits(pair, a, None);
    KeyFits(pair, b, None);
    Direction(pair, a, None, pair.pod);
    Direction(pair, b, None, pair.pod);
    assert PairOk(pair);
    assert Within(Limit(pair.container, None), Limit(pair.pod, None));
  }

  /** Raising runtime 100 to 200, once with period 1500 and once with 2000: each request is safe by itself, and the
      two can break the order. */
  lemma SameRuntimeCanBreak(pod: PodId)
    ensures var g := Group(1000, 100, [], None);
            var a, b := Request(1500, 200, None, false), Request(2000, 200, None, false);
            && NeverBroken(Pair(g, g), StepsFor(g, a, {}), OrderedFor(None))
            && NeverBroken(Pair(g, g), StepsFor(g, b, {}), OrderedFor(None))
            && CanBreak(Sys(map[pod := Pair(g, g)], []), Job(pod, a, Fresh), Job(pod, b, Fresh))
  {
    var g := Group(1000, 100, [], None);
    var a, b := Request(1500, 200, None, false), Request(2000, 200, None, false);
    PromiseExact(Pair(g, g), a, {});
    PromiseExact(Pair(g, g), b, {});
    NormalOverlapExact(Sys(map[pod := Pair(g, g)], []), Job(pod, a, Fresh), Job(pod, b, Fresh));
  }
}
