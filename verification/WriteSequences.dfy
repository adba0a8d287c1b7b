/** What holds after every single write of a sequence, however the sequence is cut short. */
module WriteSequences {
  import opened Wrappers
  import opened CgroupFiles

  /** `inv` holds after each step when all of them go through. */
  ghost predicate Along(s: Pair, steps: seq<Step>, inv: Pair -> bool)
    decreases |steps|
  {
    steps == [] ||
    (var next := Exec(s, steps[0]);
     inv(next) && Along(next, steps[1..], inv))
  }

  ghost predicate All(states: seq<Pair>, inv: Pair -> bool) {
    forall i :: 0 <= i < |states| ==> inv(states[i])
  }

  /** Every core named in the steps has its slot on both sides. */
  ghost predicate Addressable(s: Pair, steps: seq<Step>) {
    forall i :: 0 <= i < |steps| ==>
      Admissible(s.container, steps[i].payload) && Admissible(s.pod, steps[i].payload)
  }

  lemma AlongUnfold(s: Pair, a: Step, b: Step, rest: seq<Step>, inv: Pair -> bool)
    ensures Along(s, [a, b] + rest, inv) <==>
            inv(Exec(s, a)) && inv(Exec(Exec(s, a), b)) && Along(Exec(Exec(s, a), b), rest, inv)
  {
    var steps := [a, b] + rest;
    assert steps[1..] == [b] + rest;
    assert ([b] + rest)[1..] == rest;
    assert Along(Exec(s, a), [b] + rest, inv) <==>
           inv(Exec(Exec(s, a), b)) && Along(Exec(Exec(s, a), b), rest, inv);
  }

  /** A period or cpuset write that is skipped would have changed nothing. */
  lemma PerformOneEffect(w: World, unreadable: Unreadable, st: Step)
    ensures var o := PerformOne(w, unreadable, st);
            if o.ok
            then o.world.pair == Exec(w.pair, st) && o.world.visited in {w.visited, w.visited + [Exec(w.pair, st)]}
            else o.world == w
  {}

  /** Whatever the faults, every state passed through lies on the full sequence. */
  lemma {:induction false} CutShort(w: World, unreadable: Unreadable, steps: seq<Step>, inv: Pair -> bool)
    requires inv(w.pair) && Along(w.pair, steps, inv) && All(w.visited, inv)
    ensures var o := Perform(w, unreadable, steps);
            All(o.world.visited, inv) && inv(o.world.pair)
    decreases |steps|
  {
    if steps != [] {
      PerformOneEffect(w, unreadable, steps[0]);
      var o := PerformOne(w, unreadable, steps[0]);
      if o.ok {
        CutShort(o.world, unreadable, steps[1..], inv);
      }
    }
  }

  /** No cpuset that the steps would compare is unreadable. */
  ghost predicate CpusetsReadable(steps: seq<Step>, unreadable: Unreadable) {
    forall i :: 0 <= i < |steps| && steps[i].payload.Cpuset? ==> (steps[i].side, CpusetFile) !in unreadable
  }

  lemma {:induction false} VisitedGrows(w: World, unreadable: Unreadable, steps: seq<Step>)
    ensures w.visited <= Perform(w, unreadable, steps).world.visited
    decreases |steps|
  {
    if steps != [] {
      var o := PerformOne(w, unreadable, steps[0]);
      if o.ok {
        VisitedGrows(o.world, unreadable, steps[1..]);
      }
    }
  }

  lemma AddressableRest(s: Pair, t: Pair, steps: seq<Step>)
    requires steps != [] && Addressable(s, steps)
    requires |t.container.multi| == |s.container.multi| && |t.pod.multi| == |s.pod.multi|
    ensures Addressable(t, steps[1..])
  {
    forall i | 0 <= i < |steps[1..]|
      ensures Admissible(t.container, steps[1..][i].payload) && Admissible(t.pod, steps[1..][i].payload)
    {
      assert steps[1..][i] == steps[i + 1];
    }
  }

  /** With enough accepted writes nothing is cut, and every state of the sequence is passed through. */
  lemma {:induction false} Uncut(w: World, unreadable: Unreadable, steps: seq<Step>, inv: Pair -> bool)
    requires |steps| <= w.accepts && Addressable(w.pair, steps) && CpusetsReadable(steps, unreadable)
    requires inv(w.pair) && All(Perform(w, unreadable, steps).world.visited, inv)
    ensures Along(w.pair, steps, inv) && Perform(w, unreadable, steps).ok
    ensures w.visited <= Perform(w, unreadable, steps).world.visited
    decreases |steps|
  {
    if steps != [] {
      var next := PerformOne(w, unreadable, steps[0]).world;
      VisitedGrows(next, unreadable, steps[1..]);
      var visited := Perform(w, unreadable, steps).world.visited;
      if next.visited != w.visited {
        assert next.pair == next.visited[|w.visited|] == visited[|w.visited|];
      }
      AddressableRest(w.pair, next.pair, steps);
      Uncut(next, unreadable, steps[1..], inv);
    }
  }

  /** Whatever fails, no write of the sequence leads to a state outside `inv`. */
  ghost predicate NeverBroken(s: Pair, steps: seq<Step>, inv: Pair -> bool) {
    forall accepts: nat, unreadable: Unreadable ::
      All(Perform(World(s, accepts, []), unreadable, steps).world.visited, inv)
  }

  /** Ranging over all faults is the same as looking at the uninterrupted sequence. */
  lemma NeverBrokenIffAlong(s: Pair, steps: seq<Step>, inv: Pair -> bool)
    requires inv(s) && Addressable(s, steps)
    ensures NeverBroken(s, steps, inv) <==> Along(s, steps, inv)
  {
    if Along(s, steps, inv) {
      forall accepts: nat, unreadable: Unreadable
        ensures All(Perform(World(s, accepts, []), unreadable, steps).world.visited, inv)
      {
        CutShort(World(s, accepts, []), unreadable, steps, inv);
      }
    }
    if NeverBroken(s, steps, inv) {
      var n: nat := |steps|;
      var none: Unreadable := {};
      assert All(Perform(World(s, n, []), none, steps).world.visited, inv);
      Uncut(World(s, n, []), none, steps, inv);
    }
  }

  /** The state after the whole sequence. */
  ghost function Final(s: Pair, steps: seq<Step>): Pair
    decreases |steps|
  {
    if steps == [] then s else Final(Exec(s, steps[0]), steps[1..])
  }

  lemma {:induction false} CompletedIsFinal(w: World, unreadable: Unreadable, steps: seq<Step>)
    requires Perform(w, unreadable, steps).ok
    ensures Perform(w, unreadable, steps).world.pair == Final(w.pair, steps)
    decreases |steps|
  {
    if steps != [] {
      PerformOneEffect(w, unreadable, steps[0]);
      CompletedIsFinal(PerformOne(w, unreadable, steps[0]).world, unreadable, steps[1..]);
    }
  }

  /** Without a refused write or an unreadable cpuset file the whole sequence is carried out. */
  lemma {:induction false} UnhinderedCompletes(w: World, unreadable: Unreadable, steps: seq<Step>)
    requires |steps| <= w.accepts && Addressable(w.pair, steps)
    requires (Pod, CpusetFile) !in unreadable && (Container, CpusetFile) !in unreadable
    ensures Perform(w, unreadable, steps).ok
    decreases |steps|
  {
    if steps != [] {
      assert Admissible(w.pair.At(steps[0].side), steps[0].payload);
      var next := PerformOne(w, unreadable, steps[0]).world;
      assert PerformOne(w, unreadable, steps[0]).ok && |steps| - 1 <= next.accepts;
      AddressableRest(w.pair, next.pair, steps);
      UnhinderedCompletes(next, unreadable, steps[1..]);
    }
  }

  // ---- Which writes are made -----------------------------------------------

  /** The file can be read and already holds the period or the cpuset. */
  predicate InPlaceAlready(s: Pair, unreadable: Unreadable, st: Step) {
    match st.payload
    case Period(v) => (st.side, PeriodFile) !in unreadable && s.At(st.side).period == v
    case Cpuset(c) => (st.side, CpusetFile) !in unreadable && s.At(st.side).cpuset == Some(c)
    case _ => false
  }

  /** The number of writes a sequence makes. */
  function Needed(s: Pair, unreadable: Unreadable, steps: seq<Step>): nat
    decreases |steps|
  {
    if steps == [] then 0
    else (if InPlaceAlready(s, unreadable, steps[0]) then 0 else 1) +
         Needed(Exec(s, steps[0]), unreadable, steps[1..])
  }

  /** A sequence completes exactly when every cpuset it compares can be read and the writes it needs go through; no
      more writes are made than these. */
  lemma {:induction false} CompletesExact(w: World, unreadable: Unreadable, steps: seq<Step>)
    requires Addressable(w.pair, steps)
    ensures var o := Perform(w, unreadable, steps);
            && (o.ok <==> CpusetsReadable(steps, unreadable) && Needed(w.pair, unreadable, steps) <= w.accepts)
            && (o.ok ==> |o.world.visited| == |w.visited| + Needed(w.pair, unreadable, steps))
    decreases |steps|
  {
    if steps != [] {
      assert Admissible(w.pair.At(steps[0].side), steps[0].payload);
      var o := PerformOne(w, unreadable, steps[0]);
      assert CpusetsReadable(steps, unreadable) <==>
             CpusetsReadable(steps[1..], unreadable) &&
             !(steps[0].payload.Cpuset? && (steps[0].side, CpusetFile) in unreadable);
      if o.ok {
        PerformOneEffect(w, unreadable, steps[0]);
        AddressableRest(w.pair, o.world.pair, steps);
        CompletesExact(o.world, unreadable, steps[1..]);
      }
    }
  }
}
