/** Overruns from the kernel hook to the reports that name the containers. */
module OverrunPipeline {
  import opened Wrappers
  import opened Text
  import EventWire
  import OverrunDetector
  import EventAgent
  import CgroupPaths

  /** A container as the actuator knows it: the three parts of its cgroupsPath. */
  datatype Container = Container(slice: string, runtimeName: string, id: string) {
    ghost predicate WellFormed() {
      && CgroupPaths.KnownRuntime(runtimeName) && CgroupPaths.IsId(id) && ':' !in slice && '/' !in slice
      && CgroupPaths.LastIndex(slice, "-pod").Some? && 0 < CgroupPaths.LastIndex(slice, "-pod").value
    }

    function Paths(): Option<CgroupPaths.Paths> {
      CgroupPaths.PathsFrom(slice + ":" + (runtimeName + ":" + id))
    }
  }

  /** The path is the directory the actuator computes for the container, and the pod's own path shows no id. */
  ghost predicate IsPathOf(path: string, c: Container) {
    && c.WellFormed() && c.Paths().Some? && CgroupPaths.ExtractContainerID(c.Paths().value.pod).None?
    && path == c.Paths().value.container
  }

  /** `cgid` is that directory in this tree. */
  ghost predicate IsContainerDir(cgid: EventAgent.Ino, tree: EventAgent.Dir, c: Container) {
    var table := EventAgent.Table(EventAgent.Walk(CgroupPaths.ROOT, tree));
    cgid in table && IsPathOf(table[cgid], c)
  }

  /** The directory is there when the record is handled, or an earlier walk met it. */
  ghost predicate Known(first: EventAgent.Dir, inputs: seq<EventAgent.Input>, tree: EventAgent.Dir,
                        cgid: EventAgent.Ino, c: Container) {
    || IsContainerDir(cgid, tree, c)
    || exists path :: EventAgent.Met(first, inputs, CgroupPaths.ROOT, cgid, path) && IsPathOf(path, c)
  }

  // ---- One record ----------------------------------------------------------

  lemma PathNamesId(path: string, c: Container)
    requires IsPathOf(path, c)
    ensures CgroupPaths.ExtractContainerID(path) == Some(c.id)
  {
    CgroupPaths.IdRoundTrip(c.slice, c.runtimeName, c.id);
  }

  /** Handling one record whose cgroup is a known container directory. */
  lemma RecordIsPosted(first: EventAgent.Dir, inputs: seq<EventAgent.Input>, next: EventAgent.Input,
                       ev: EventWire.Event, c: Container)
    requires next.Record? && EventWire.Decode(next.raw) == Some(ev) && Known(first, inputs, next.tree, ev.cgid, c)
    requires EventAgent.StableNames(first, inputs + [next], CgroupPaths.ROOT)
    ensures EventAgent.PostedOnto(
              EventAgent.After(first, inputs, CgroupPaths.ROOT),
              EventAgent.After(first, inputs + [next], CgroupPaths.ROOT), EventAgent.Post(c.id, ev.ts))
  {
    if IsContainerDir(ev.cgid, next.tree, c) {
      PathNamesId(EventAgent.Table(EventAgent.Walk(CgroupPaths.ROOT, next.tree))[ev.cgid], c);
      EventAgent.LiveIsPosted(first, inputs, next, CgroupPaths.ROOT, ev, c.id);
    } else {
      var path :| EventAgent.Met(first, inputs, CgroupPaths.ROOT, ev.cgid, path) && IsPathOf(path, c);
      PathNamesId(path, c);
      EventAgent.MetGrows(first, inputs, next, CgroupPaths.ROOT, ev.cgid, path);
      EventAgent.PostedIffMet(first, inputs, next, CgroupPaths.ROOT, ev, c.id);
    }
  }

  /** What the trace calls for: an overrun of an admitted entity whose earlier overruns were all followed by a
      replenishment, if the ring buffer has room. */
  ghost predicate Called(trace: seq<OverrunDetector.Call>, c: OverrunDetector.Call) {
    && c.Passes() && c.Overruns(c.se.value) && c.slot
    && OverrunDetector.Admitted(trace, c.se.value) && OverrunDetector.Rearmed(trace, c.se.value)
  }

  lemma CalledIsSubmitted(trace: seq<OverrunDetector.Call>, c: OverrunDetector.Call)
    ensures OverrunDetector.After(trace + [c]).submitted ==
            OverrunDetector.After(trace).submitted + if Called(trace, c) then [c.Record()] else []
  {
    OverrunDetector.ReportIffHistory(trace, c);
    assert (trace + [c])[..|trace|] == trace;
  }

  /** The record holds this event, with anything in its padding. */
  ghost predicate Holds(raw: seq<Byte>, ev: EventWire.Event) {
    ev.Valid() && exists junk: seq<Byte> :: |junk| == 8 && raw == EventWire.Encode(ev, junk)
  }

  lemma HeldIsDecoded(raw: seq<Byte>, ev: EventWire.Event)
    requires Holds(raw, ev)
    ensures EventWire.Decode(raw) == Some(ev)
  {
    var junk: seq<Byte> :| |junk| == 8 && raw == EventWire.Encode(ev, junk);
    EventWire.EncodeDecode(ev, junk);
  }

  /** One overrun, whatever the agent has handled before: its event is appended, and handling the record posts
      exactly that container's id with the event's time and raises exactly that container's count. */
  lemma OverrunReachesController(trace: seq<OverrunDetector.Call>, call: OverrunDetector.Call,
                                 first: EventAgent.Dir, inputs: seq<EventAgent.Input>, next: EventAgent.Input,
                                 c: Container)
    requires Called(trace, call) && next.Record? && Holds(next.raw, call.Record())
    requires Known(first, inputs, next.tree, call.cgid, c)
    requires EventAgent.StableNames(first, inputs + [next], CgroupPaths.ROOT)
    ensures OverrunDetector.After(trace + [call]).submitted ==
            OverrunDetector.After(trace).submitted + [call.Record()]
    ensures EventAgent.PostedOnto(
              EventAgent.After(first, inputs, CgroupPaths.ROOT),
              EventAgent.After(first, inputs + [next], CgroupPaths.ROOT), EventAgent.Post(c.id, call.ts))
  {
    CalledIsSubmitted(trace, call);
    HeldIsDecoded(next.raw, call.Record());
    RecordIsPosted(first, inputs, next, call.Record(), c);
  }

  // ---- A whole run ---------------------------------------------------------

  /** The ring buffer hands over these events in order; reads may fail in between. */
  ghost predicate Carries(inputs: seq<EventAgent.Input>, events: seq<EventWire.Event>)
    decreases |inputs|
  {
    if inputs == [] then events == []
    else
      var n, m := |inputs| - 1, |events| - 1;
      if inputs[n].ReadError? then Carries(inputs[..n], events)
      else events != [] && Holds(inputs[n].raw, events[m]) && Carries(inputs[..n], events[..m])
  }

  /** Each event's cgroup is known as its owner's directory when the event is handled. */
  ghost predicate AllKnown(first: EventAgent.Dir, inputs: seq<EventAgent.Input>, owner: EventAgent.Ino -> Container) {
    forall i :: 0 <= i < |inputs| && inputs[i].Record? && EventWire.Decode(inputs[i].raw).Some? ==>
      var cgid := EventWire.Decode(inputs[i].raw).value.cgid;
      Known(first, inputs[..i], inputs[i].tree, cgid, owner(cgid))
  }

  function PostsFor(events: seq<EventWire.Event>, owner: EventAgent.Ino -> Container): seq<EventAgent.Post> {
    if events == [] then []
    else
      var m := |events| - 1;
      PostsFor(events[..m], owner) + [EventAgent.Post(owner(events[m].cgid).id, events[m].ts)]
  }

  lemma KnownPrefix(first: EventAgent.Dir, inputs: seq<EventAgent.Input>, next: EventAgent.Input,
                    owner: EventAgent.Ino -> Container)
    requires AllKnown(first, inputs + [next], owner)
    requires EventAgent.StableNames(first, inputs + [next], CgroupPaths.ROOT)
    ensures AllKnown(first, inputs, owner) && EventAgent.StableNames(first, inputs, CgroupPaths.ROOT)
    ensures next.Record? && EventWire.Decode(next.raw).Some? ==>
              var cgid := EventWire.Decode(next.raw).value.cgid; Known(first, inputs, next.tree, cgid, owner(cgid))
  {
    var all := inputs + [next];
    EventAgent.StablePrefix(first, inputs, next, CgroupPaths.ROOT);
    assert all[|inputs|] == next && all[..|inputs|] == inputs;
    forall i | 0 <= i < |inputs|
      ensures all[i] == inputs[i] && all[..i] == inputs[..i]
    {}
  }

  /** The agent's side: one post for each event, in the same order. */
  lemma {:induction false} EventsArePosted(first: EventAgent.Dir, inputs: seq<EventAgent.Input>,
                                           events: seq<EventWire.Event>, owner: EventAgent.Ino -> Container)
    requires Carries(inputs, events) && AllKnown(first, inputs, owner)
    requires EventAgent.StableNames(first, inputs, CgroupPaths.ROOT)
    ensures EventAgent.After(first, inputs, CgroupPaths.ROOT).posts == PostsFor(events, owner)
    decreases |inputs|
  {
    if inputs != [] {
      var n, m := |inputs| - 1, |events| - 1;
      var init, next := inputs[..n], inputs[n];
      assert inputs == init + [next];
      KnownPrefix(first, init, next, owner);
      if next.ReadError? {
        EventsArePosted(first, init, events, owner);
        EventAgent.AfterStep(first, init, next, CgroupPaths.ROOT);
      } else {
        EventsArePosted(first, init, events[..m], owner);
        HeldIsDecoded(next.raw, events[m]);
        RecordIsPosted(first, init, next, events[m], owner(events[m].cgid));
      }
    }
  }

  /** The posts of a trace, in terms of its calls alone. */
  ghost function Notices(trace: seq<OverrunDetector.Call>, owner: EventAgent.Ino -> Container): seq<EventAgent.Post> {
    if trace == [] then []
    else
      var init, c := trace[..|trace| - 1], trace[|trace| - 1];
      Notices(init, owner) + if Called(init, c) then [EventAgent.Post(owner(c.cgid).id, c.ts)] else []
  }

  /** The detector's side: one event for each call that the trace calls for. */
  lemma {:induction false} CalledAreSubmitted(trace: seq<OverrunDetector.Call>, owner: EventAgent.Ino -> Container)
    ensures PostsFor(OverrunDetector.After(trace).submitted, owner) == Notices(trace, owner)
    decreases |trace|
  {
    if trace != [] {
      var init, c := trace[..|trace| - 1], trace[|trace| - 1];
      CalledAreSubmitted(init, owner);
      CalledIsSubmitted(init, c);
      assert init + [c] == trace;
      if Called(init, c) {
        var before := OverrunDetector.After(init).submitted;
        assert (before + [c.Record()])[..|before|] == before;
      }
    }
  }

  /** Detector, record layout, path cache and id extraction together, over whole runs: if the submitted events of a
      trace are handled in order and their cgroups are known, then the controller gets exactly one post for each
      overrun that the trace calls for, in the same order, with its container's id and its own time; and the
      counters count exactly these posts. */
  lemma OverrunsReachController(trace: seq<OverrunDetector.Call>, first: EventAgent.Dir,
                                inputs: seq<EventAgent.Input>, owner: EventAgent.Ino -> Container)
    requires Carries(inputs, OverrunDetector.After(trace).submitted) && AllKnown(first, inputs, owner)
    requires EventAgent.StableNames(first, inputs, CgroupPaths.ROOT)
    ensures var s := EventAgent.After(first, inputs, CgroupPaths.ROOT);
            && s.posts == Notices(trace, owner)
            && s.total == |Notices(trace, owner)|
            && forall id :: EventAgent.Count(s.counts, id) == EventAgent.CountIn(Notices(trace, owner), id)
  {
    EventsArePosted(first, inputs, OverrunDetector.After(trace).submitted, owner);
    CalledAreSubmitted(trace, owner);
    EventAgent.CountersConserve(first, inputs, CgroupPaths.ROOT);
  }
}
