/** The kernel-side overrun detector: one edge-triggered automaton per deadline entity, kept in a
    bounded hash map that is shared by all of them. */
module OverrunDetector {
  import opened Wrappers
  import opened EventWire

  const CAPACITY: nat := 8192
  const OVERRUN_THRESHOLD_NS: int := -100000
  const IGNORED_DL_RUNTIME: nat := 50000000

  type Entity = nat

  /** The run queue served by a deadline entity; a task group of 0 is the null pointer. */
  datatype Queue = Queue(tg: nat, nrRunning: nat)

  /** One call of the hook with everything it reads; `slot` tells whether the ring buffer has room. */
  datatype Call = Call(se: Option<Entity>, dlServer: bool, myQ: Option<Queue>, runtime: int, throttled: bool,
                       dlRuntime: nat, slot: bool, ts: nat, cpu: nat, cgid: nat)
  {
    /** The call concerns a server with running RT tasks. */
    predicate Passes() {
      se.Some? && dlServer && myQ.Some? && myQ.value.tg != 0 && myQ.value.nrRunning != 0
    }

    predicate PassesFor(e: Entity) {
      Passes() && se.value == e
    }

    predicate Overruns(e: Entity) {
      PassesFor(e) && runtime <= OVERRUN_THRESHOLD_NS && throttled && dlRuntime != IGNORED_DL_RUNTIME
    }

    predicate Replenished(e: Entity) {
      PassesFor(e) && 0 < runtime
    }

    function Record(): Event
      requires myQ.Some?
    {
      Event(ts, cpu, myQ.value.nrRunning, runtime, myQ.value.tg, cgid)
    }
  }

  /** `wasPos` is the se_state map, `submitted` what was handed to user space. */
  datatype State = State(wasPos: map<Entity, bool>, submitted: seq<Event>)

  const INITIAL := State(map[], [])

  /** The entry the hook finds or creates; None when the map is full. */
  function Entry(s: State, e: Entity): Option<bool> {
    if e in s.wasPos then Some(s.wasPos[e])
    else if |s.wasPos| < CAPACITY then Some(true)
    else None
  }

  /** The call takes the reporting branch. */
  predicate Fires(s: State, c: Call) {
    c.Passes() && c.Overruns(c.se.value) && Entry(s, c.se.value) == Some(true)
  }

  function Hook(s: State, c: Call): State {
    if !c.Passes() || Entry(s, c.se.value).None? then s
    else
      var e := c.se.value;
      var armed := Entry(s, e).value;
      if Fires(s, c) then
        State(s.wasPos[e := false], if c.slot then s.submitted + [c.Record()] else s.submitted)
      else
        s.(wasPos := s.wasPos[e := armed || 0 < c.runtime])
  }

  /** One call in terms of its fields: whose entry it changes and how, and what it submits. Calls without an RT
      entity, for a task that is no server, without a task group or without running RT tasks change nothing. */
  lemma HookInFields(s: State, c: Call, e: Entity)
    ensures var t := Hook(s, c);
            var counts :=
              && c.se == Some(e) && c.dlServer && c.myQ.Some? && c.myQ.value.tg != 0 && 0 < c.myQ.value.nrRunning
              && (e in s.wasPos || |s.wasPos| < 8192);
            var armed := e !in s.wasPos || s.wasPos[e];
            var overrun := c.runtime <= -100000 && c.throttled && c.dlRuntime != 50000000;
            && (e in t.wasPos <==> e in s.wasPos || counts)
            && (e in t.wasPos ==>
                 (t.wasPos[e] <==> if counts then (armed && !overrun) || (!armed && 0 < c.runtime) else armed))
            && (c.se == Some(e) || c.se == None ==>
                 t.submitted == s.submitted +
                   if counts && armed && overrun && c.slot
                   then [Event(c.ts, c.cpu, c.myQ.value.nrRunning, c.runtime, c.myQ.value.tg, c.cgid)] else [])
  {}

  class Detector {
    var seState: map<Entity, bool>
    var events: seq<Event>

    function Contents(): State
      reads this
    {
      State(seState, events)
    }

    constructor ()
      ensures Contents() == INITIAL
    {
      seState, events := map[], [];
    }

    method OnUpdateCurrDlSe(c: Call)
      modifies this
      ensures Contents() == Hook(old(Contents()), c)
    {
      if c.se.None? || !c.dlServer {
        return;
      }
      var tg := 0;
      if c.myQ.Some? {
        tg := c.myQ.value.tg;
      }
      if tg == 0 {
        return;
      }
      var nrRunning := c.myQ.value.nrRunning;
      if nrRunning == 0 {
        return;
      }
      var key := c.se.value;
      if key !in seState {
        if |seState| < CAPACITY {
          seState := seState[key := true];
        }
        if key !in seState {
          return;
        }
      }
      if seState[key] && c.runtime <= OVERRUN_THRESHOLD_NS && c.throttled && c.dlRuntime != IGNORED_DL_RUNTIME {
        if c.slot {
          events := events + [Event(c.ts, c.cpu, nrRunning, c.runtime, tg, c.cgid)];
        }
        seState := seState[key := false];
      } else if !seState[key] && 0 < c.runtime {
        seState := seState[key := true];
      }
    }
  }

  // ---- Traces --------------------------------------------------------------

  function After(trace: seq<Call>): State {
    if trace == [] then INITIAL else Hook(After(trace[..|trace| - 1]), trace[|trace| - 1])
  }

  /** The entities with a call that passed the filters. */
  ghost function Seen(trace: seq<Call>): set<Entity> {
    if trace == [] then {}
    else
      var c := trace[|trace| - 1];
      Seen(trace[..|trace| - 1]) + if c.Passes() then {c.se.value} else {}
  }

  /** The other entities seen before `e` first passed the filters (so far, if it has not yet). */
  ghost function SeenBefore(trace: seq<Call>, e: Entity): set<Entity> {
    if trace == [] then {}
    else
      var init := trace[..|trace| - 1];
      if e in Seen(init) then SeenBefore(init, e) else Seen(trace) - {e}
  }

  /** Among the first CAPACITY entities. */
  ghost predicate Admitted(trace: seq<Call>, e: Entity) {
    |SeenBefore(trace, e)| < CAPACITY
  }

  /** Every earlier overrun of `e` was followed by a replenishment. */
  ghost predicate Rearmed(trace: seq<Call>, e: Entity) {
    forall j :: 0 <= j < |trace| && trace[j].Overruns(e) ==> exists k :: j < k < |trace| && trace[k].Replenished(e)
  }

  lemma RearmedStep(trace: seq<Call>, c: Call, e: Entity)
    ensures Rearmed(trace + [c], e) <==> !c.Overruns(e) && (c.Replenished(e) || Rearmed(trace, e))
  {
    var longer := trace + [c];
    assert longer[|trace|] == c;
    if Rearmed(trace, e) && !c.Overruns(e) {
      forall j | 0 <= j < |longer| && longer[j].Overruns(e)
        ensures exists k :: j < k < |longer| && longer[k].Replenished(e)
      {
        assert trace[j].Overruns(e);
        var k :| j < k < |trace| && trace[k].Replenished(e);
        assert longer[k].Replenished(e);
      }
    }
    if c.Replenished(e) {
      assert longer[|trace|].Replenished(e);
    }
    if Rearmed(longer, e) && !c.Replenished(e) {
      forall j | 0 <= j < |trace| && trace[j].Overruns(e)
        ensures exists k :: j < k < |trace| && trace[k].Replenished(e)
      {
        assert longer[j].Overruns(e);
        var k :| j < k < |longer| && longer[k].Replenished(e);
        assert k < |trace| && trace[k].Replenished(e);
      }
    }
  }

  lemma AdmittedStep(trace: seq<Call>, c: Call, e: Entity)
    ensures var longer := trace + [c];
            && Seen(longer) == Seen(trace) + (if c.Passes() then {c.se.value} else {})
            && SeenBefore(longer, e) == (if e in Seen(trace) then SeenBefore(trace, e) else Seen(longer) - {e})
            && After(longer) == Hook(After(trace), c)
  {
    assert (trace + [c])[..|trace|] == trace;
  }

  /** How the map's size follows the number of entities seen. */
  ghost predicate Filled(keys: set<Entity>, seen: set<Entity>) {
    && |keys| <= CAPACITY
    && keys <= seen
    && (|seen| <= CAPACITY ==> keys == seen)
    && (CAPACITY <= |seen| ==> |keys| == CAPACITY)
  }

  lemma SetGrowth<T>(a: set<T>, b: set<T>)
    requires a <= b
    ensures |a| <= |b| && (|a| == |b| ==> a == b)
  {
    assert b == a + (b - a);
    assert |b| == |a| + |b - a|;
  }

  /** An entity is added while there is room, and only then. */
  lemma InsertFills(keys: set<Entity>, seen: set<Entity>, e: Entity)
    requires Filled(keys, seen)
    ensures Filled(if e in keys || |keys| < CAPACITY then keys + {e} else keys, seen + {e})
  {
    SetGrowth(keys, seen);
    if e in seen {
      assert seen + {e} == seen;
    } else {
      assert |seen + {e}| == |seen| + 1 && |keys + {e}| == |keys| + 1;
    }
    if e in keys {
      assert keys + {e} == keys;
    }
  }

  lemma HookKeys(s: State, c: Call)
    ensures var keys := s.wasPos.Keys;
            Hook(s, c).wasPos.Keys ==
            if c.Passes() && (c.se.value in keys || |keys| < CAPACITY) then keys + {c.se.value} else keys
  {
    assert |s.wasPos| == |s.wasPos.Keys|;
  }

  lemma {:induction false} MapFills(trace: seq<Call>)
    ensures Filled(After(trace).wasPos.Keys, Seen(trace))
    decreases |trace|
  {
    if trace != [] {
      var init, c := trace[..|trace| - 1], trace[|trace| - 1];
      MapFills(init);
      HookKeys(After(init), c);
      if c.Passes() {
        InsertFills(After(init).wasPos.Keys, Seen(init), c.se.value);
      }
    }
  }

  /** What one call does to the arming of one entity. */
  lemma HookOnEntity(s: State, c: Call, e: Entity)
    ensures var m, n := s.wasPos, Hook(s, c).wasPos;
            if c.PassesFor(e) && Entry(s, e).Some? then
              && n.Keys == m.Keys + {e}
              && n[e] == ((Entry(s, e).value || 0 < c.runtime) && !c.Overruns(e))
            else
              && (e in n <==> e in m)
              && (e in m ==> n[e] == m[e])
  {}

  /** The map holds the admitted entities, each with the arming its own history calls for. */
  lemma {:induction false} StateIsHistory(trace: seq<Call>, e: Entity)
    ensures var m := After(trace).wasPos;
            && (e in m <==> e in Seen(trace) && Admitted(trace, e))
            && (e in m ==> (m[e] <==> Rearmed(trace, e)))
    ensures e !in Seen(trace) ==> Rearmed(trace, e)
    decreases |trace|
  {
    if trace != [] {
      var init, c := trace[..|trace| - 1], trace[|trace| - 1];
      assert init + [c] == trace;
      StateIsHistory(init, e);
      MapFills(init);
      RearmedStep(init, c, e);
      AdmittedStep(init, c, e);
      HookOnEntity(After(init), c, e);
      if c.PassesFor(e) && e !in Seen(init) {
        assert Seen(trace) - {e} == Seen(init);
        SetGrowth(After(init).wasPos.Keys, Seen(init));
      }
    }
  }

  lemma {:induction false} SeenBeforeUnseen(trace: seq<Call>, e: Entity)
    requires e !in Seen(trace)
    ensures SeenBefore(trace, e) == Seen(trace)
  {
    if trace != [] {
      assert Seen(trace) - {e} == Seen(trace);
    }
  }

  /** After any trace of calls for any entities, the next call reports exactly when it is an overrun of an
      admitted entity whose earlier overruns were all followed by a replenishment. */
  lemma ReportIffHistory(trace: seq<Call>, c: Call)
    ensures Fires(After(trace), c) <==>
            c.Passes() && c.Overruns(c.se.value) && Admitted(trace, c.se.value) && Rearmed(trace, c.se.value)
  {
    if c.Passes() {
      var e := c.se.value;
      StateIsHistory(trace, e);
      MapFills(trace);
      if e !in Seen(trace) {
        SeenBeforeUnseen(trace, e);
      } else if !Admitted(trace, e) {
        assert Seen(trace) != After(trace).wasPos.Keys;
      }
    }
  }

  // ---- Entities do not disturb each other ----------------------------------

  function Only(trace: seq<Call>, e: Entity): seq<Call> {
    if trace == [] then []
    else
      var c := trace[|trace| - 1];
      Only(trace[..|trace| - 1], e) + if c.PassesFor(e) then [c] else []
  }

  /** Run alone, an entity is tracked from its first call on. */
  lemma {:induction false} AloneTracked(trace: seq<Call>, e: Entity)
    ensures After(Only(trace, e)).wasPos.Keys == (if e in Seen(trace) then {e} else {})
    ensures Entry(After(Only(trace, e)), e).Some?
    decreases |trace|
  {
    var keys := After(Only(trace, e)).wasPos.Keys;
    if trace != [] {
      var init, c := trace[..|trace| - 1], trace[|trace| - 1];
      AloneTracked(init, e);
      if c.PassesFor(e) {
        AdmittedStep(Only(init, e), c, e);
        HookOnEntity(After(Only(init, e)), c, e);
        assert keys == {e};
      } else {
        assert Only(trace, e) == Only(init, e);
      }
    }
    assert |After(Only(trace, e)).wasPos| == |keys| <= 1;
  }

  /** There is only room for an untracked entity that has not been seen. */
  lemma FirstCallUnseen(trace: seq<Call>, e: Entity)
    requires e !in After(trace).wasPos && Entry(After(trace), e).Some?
    ensures e !in Seen(trace)
  {
    MapFills(trace);
  }

  lemma {:induction false} TrackedAsAlone(trace: seq<Call>, e: Entity)
    requires e in After(trace).wasPos
    ensures e in After(Only(trace, e)).wasPos
    ensures After(trace).wasPos[e] == After(Only(trace, e)).wasPos[e]
    decreases |trace|
  {
    var init, c := trace[..|trace| - 1], trace[|trace| - 1];
    HookOnEntity(After(init), c, e);
    AloneTracked(init, e);
    if e in After(init).wasPos {
      TrackedAsAlone(init, e);
    } else {
      StateIsHistory(init, e);
      FirstCallUnseen(init, e);
    }
    if c.PassesFor(e) {
      AdmittedStep(Only(init, e), c, e);
      HookOnEntity(After(Only(init, e)), c, e);
    } else {
      assert Only(trace, e) == Only(init, e);
    }
  }

  /** An admitted entity is reported exactly as if it were alone; any other is never reported. */
  lemma NoInterference(trace: seq<Call>, c: Call)
    requires c.Passes()
    ensures Fires(After(trace), c) <==>
            Admitted(trace, c.se.value) && Fires(After(Only(trace, c.se.value)), c)
  {
    var e := c.se.value;
    ReportIffHistory(trace, c);
    StateIsHistory(trace, e);
    AloneTracked(trace, e);
    assert |After(Only(trace, e)).wasPos| == |After(Only(trace, e)).wasPos.Keys|;
    if e in After(trace).wasPos {
      TrackedAsAlone(trace, e);
    }
  }

  // ---- Reports and re-armings ----------------------------------------------

  /** The calls that took the reporting branch, in order. */
  function Reports(trace: seq<Call>): seq<Call> {
    if trace == [] then []
    else
      var init, c := trace[..|trace| - 1], trace[|trace| - 1];
      Reports(init) + if Fires(After(init), c) then [c] else []
  }

  function CountFor(calls: seq<Call>, e: Entity): nat {
    if calls == [] then 0
    else CountFor(calls[..|calls| - 1], e) + if calls[|calls| - 1].PassesFor(e) then 1 else 0
  }

  /** How often `e` went from disarmed back to armed. */
  function Rearmings(trace: seq<Call>, e: Entity): nat {
    if trace == [] then 0
    else
      var init := trace[..|trace| - 1];
      var before, now := After(init).wasPos, After(trace).wasPos;
      Rearmings(init, e) + if e in before && !before[e] && e in now && now[e] then 1 else 0
  }

  lemma CountForAppend(calls: seq<Call>, c: Call, e: Entity)
    ensures CountFor(calls + [c], e) == CountFor(calls, e) + if c.PassesFor(e) then 1 else 0
  {
    assert (calls + [c])[..|calls|] == calls;
  }

  /** Reports and re-armings alternate, a lost ring-buffer slot included. */
  lemma {:induction false} ReportBalance(trace: seq<Call>, e: Entity)
    ensures var m := After(trace).wasPos;
            CountFor(Reports(trace), e) - Rearmings(trace, e) == if e in m && !m[e] then 1 else 0
    decreases |trace|
  {
    if trace != [] {
      var init, c := trace[..|trace| - 1], trace[|trace| - 1];
      ReportBalance(init, e);
      HookOnEntity(After(init), c, e);
      if Fires(After(init), c) {
        CountForAppend(Reports(init), c, e);
        assert Reports(trace) == Reports(init) + [c];
      } else {
        assert Reports(trace) == Reports(init);
      }
    }
  }

  /** The events of the calls that found room in the ring buffer. */
  function EventsOf(calls: seq<Call>): seq<Event>
    requires forall i :: 0 <= i < |calls| ==> calls[i].Passes()
  {
    if calls == [] then []
    else
      var last := |calls| - 1;
      assert calls[last].Passes();
      EventsOf(calls[..last]) + if calls[last].slot then [calls[last].Record()] else []
  }

  lemma {:induction false} SubmittedAreReports(trace: seq<Call>)
    ensures forall i :: 0 <= i < |Reports(trace)| ==> Reports(trace)[i].Passes()
    ensures After(trace).submitted == EventsOf(Reports(trace))
    decreases |trace|
  {
    if trace != [] {
      var init, c := trace[..|trace| - 1], trace[|trace| - 1];
      SubmittedAreReports(init);
      var reports := Reports(trace);
      if Fires(After(init), c) {
        assert reports == Reports(init) + [c];
        assert reports[..|reports| - 1] == Reports(init);
        assert reports[|reports| - 1] == c;
      } else {
        assert reports == Reports(init);
      }
    }
  }
}
