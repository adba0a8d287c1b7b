/** The node's busy flag: a timed state machine, driven by a one-second ticker, whose publish step may fail. */
module BusyReporter {
  import opened Wrappers
  import opened CpuUsage

  const SECOND: int := 1000000000
  const HOLD: int := 5 * SECOND

  /** The outcome of a publish. With `Unconfirmed` the annotations were written although the client got an error,
      as when its three seconds were over. */
  datatype Reply = Confirmed | Unconfirmed | Refused

  /** One tick. `now` is the clock while deciding, `annTime` and `dropTime` the two clock readings after a
      successful publish; `usage` is None when /proc/stat could not be read. */
  datatype Tick = Tick(now: int, annTime: int, dropTime: int, usage: Option<int>, reply: Reply) {
    predicate High() {
      usage.Some? && 90 < usage.value
    }

    predicate Low() {
      usage.Some? && usage.value <= 90
    }
  }

  /** The annotations of one publish: usage, seconds over 90, isCpuBusy. */
  datatype Msg = Msg(usage: int, duration: int, busy: bool)

  /** The loop's variables; None is the zero time. */
  datatype State = State(over90: int, lastAnnUsage: int, lastAnnTime: Option<int>,
                         dropped: Option<int>, waiting: bool)

  const INITIAL := State(0, -1, None, None, false)

  /** The zero time lies further back than any limit. */
  predicate Since(now: int, t: Option<int>, limit: int) {
    t.Some? ==> limit <= now - t.value
  }

  function Over90(s: State, t: Tick): int {
    if t.High() then s.over90 + 1 else if t.Low() then 0 else s.over90
  }

  /** What the tick tries to publish. */
  function Attempt(s: State, t: Tick): Option<Msg> {
    if t.usage.None? then None
    else
      var u := t.usage.value;
      if t.High() then
        if u != s.lastAnnUsage || Since(t.now, s.lastAnnTime, HOLD + 1) then Some(Msg(u, Over90(s, t), true)) else None
      else if 90 < s.lastAnnUsage then Some(Msg(u, Over90(s, t), true))
      else if s.waiting && Since(t.now, s.dropped, HOLD) then Some(Msg(u, Over90(s, t), false))
      else None
  }

  function Next(s: State, t: Tick): State {
    var m := Attempt(s, t);
    var s' := s.(over90 := Over90(s, t), waiting := s.waiting && !t.High());
    if m.None? || !t.reply.Confirmed? then s'
    else
      var s'' := s'.(lastAnnUsage := m.value.usage, lastAnnTime := Some(t.annTime));
      if t.High() then s''
      else if m.value.busy then s''.(dropped := Some(t.dropTime), waiting := true)
      else s''.(waiting := false)
  }

  function After(ticks: seq<Tick>): State {
    if ticks == [] then INITIAL else Next(After(ticks[..|ticks| - 1]), ticks[|ticks| - 1])
  }

  function Sent(ticks: seq<Tick>, i: nat): Option<Msg>
    requires i < |ticks|
  {
    Attempt(After(ticks[..i]), ticks[i])
  }

  /** What all ticks tried to publish, in order. */
  function Log(ticks: seq<Tick>): seq<Option<Msg>> {
    if ticks == [] then []
    else
      var n := |ticks| - 1;
      Log(ticks[..n]) + [Attempt(After(ticks[..n]), ticks[n])]
  }

  lemma {:induction false} LogIsSent(ticks: seq<Tick>)
    ensures |Log(ticks)| == |ticks|
    ensures forall i :: 0 <= i < |ticks| ==> Log(ticks)[i] == Sent(ticks, i)
    decreases |ticks|
  {
    if ticks != [] {
      var n := |ticks| - 1;
      LogIsSent(ticks[..n]);
      forall i | 0 <= i < n
        ensures Log(ticks)[i] == Sent(ticks, i)
      {
        assert ticks[..n][..i] == ticks[..i];
      }
    }
  }

  // ---- The loop ------------------------------------------------------------

  datatype Reading = Reading(now: int, annTime: int, dropTime: int, sample: Option<CpuSample>, reply: Reply)

  function LastSample(first: CpuSample, readings: seq<Reading>): CpuSample {
    if readings == [] then first
    else
      var r := readings[|readings| - 1];
      if r.sample.Some? then r.sample.value else LastSample(first, readings[..|readings| - 1])
  }

  function TickOf(first: CpuSample, readings: seq<Reading>, i: nat): Tick
    requires i < |readings|
  {
    var r := readings[i];
    Tick(r.now, r.annTime, r.dropTime,
         if r.sample.None? then None else Some(ComputeUsage(LastSample(first, readings[..i]), r.sample.value)),
         r.reply)
  }

  function Ticks(first: CpuSample, readings: seq<Reading>): (ticks: seq<Tick>)
    ensures |ticks| == |readings|
  {
    seq(|readings|, i requires 0 <= i < |readings| => TickOf(first, readings, i))
  }

  lemma TickAt(first: CpuSample, readings: seq<Reading>, i: nat)
    requires i < |readings|
    ensures var r, ticks := readings[i], Ticks(first, readings);
            && ticks[i] == TickOf(first, readings, i)
            && After(ticks[..i + 1]) == Next(After(ticks[..i]), ticks[i])
            && Log(ticks[..i + 1]) == Log(ticks[..i]) + [Attempt(After(ticks[..i]), ticks[i])]
            && LastSample(first, readings[..i + 1]) ==
               (if r.sample.Some? then r.sample.value else LastSample(first, readings[..i]))
  {
    assert Ticks(first, readings)[..i + 1][..i] == Ticks(first, readings)[..i];
    assert readings[..i + 1][..i] == readings[..i];
  }

  method ReportLoop(first: CpuSample, readings: seq<Reading>) returns (log: seq<Option<Msg>>)
    ensures log == Log(Ticks(first, readings))
  {
    var prev := first;
    var over90time := 0;
    var lastAnnUsage := -1;
    var lastAnnTime, droppedBelowTime: Option<int> := None, None;
    var waitingForBusyFalse := false;
    log := [];
    ghost var ticks := Ticks(first, readings);
    for i := 0 to |readings|
      invariant prev == LastSample(first, readings[..i])
      invariant State(over90time, lastAnnUsage, lastAnnTime, droppedBelowTime, waitingForBusyFalse) == After(ticks[..i])
      invariant log == Log(ticks[..i])
    {
      var r := readings[i];
      ghost var t := ticks[i];
      ghost var s := After(ticks[..i]);
      TickAt(first, readings, i);
      var sent: Option<Msg> := None;
      if r.sample.Some? {
        var u := ComputeUsage(prev, r.sample.value);
        prev := r.sample.value;
        if 90 < u {
          over90time := over90time + 1;
        } else {
          over90time := 0;
        }
        if 90 < u {
          waitingForBusyFalse := false;
          if u != lastAnnUsage || lastAnnTime.None? || HOLD < r.now - lastAnnTime.value {
            sent := Some(Msg(u, over90time, true));
            if r.reply.Confirmed? {
              lastAnnUsage, lastAnnTime := u, Some(r.annTime);
            }
          }
        } else if 90 < lastAnnUsage {
          sent := Some(Msg(u, over90time, true));
          if r.reply.Confirmed? {
            lastAnnUsage, lastAnnTime := u, Some(r.annTime);
            droppedBelowTime, waitingForBusyFalse := Some(r.dropTime), true;
          }
        } else if waitingForBusyFalse && (droppedBelowTime.None? || HOLD <= r.now - droppedBelowTime.value) {
          sent := Some(Msg(u, over90time, false));
          if r.reply.Confirmed? {
            lastAnnUsage, lastAnnTime, waitingForBusyFalse := u, Some(r.annTime), false;
          }
        }
      }
      assert sent == Attempt(s, t);
      assert State(over90time, lastAnnUsage, lastAnnTime, droppedBelowTime, waitingForBusyFalse) == Next(s, t);
      log := log + [sent];
    }
    assert ticks[..|ticks|] == ticks;
  }

  // ---- The flag is cleared only after a quiet period -----------------------

  /** A first low sample after a published high one, and its publish was confirmed. */
  ghost predicate DropAt(ticks: seq<Tick>, d: nat)
    requires d < |ticks|
  {
    ticks[d].Low() && ticks[d].reply.Confirmed? && Sent(ticks, d).Some? && Sent(ticks, d).value.busy
  }

  ghost predicate ClearAt(ticks: seq<Tick>, d: nat)
    requires d < |ticks|
  {
    ticks[d].reply.Confirmed? && Sent(ticks, d).Some? && !Sent(ticks, d).value.busy
  }

  /** Since the drop at `d` no sample was high and no clear was confirmed. */
  ghost predicate QuietSince(ticks: seq<Tick>, d: nat)
    requires d < |ticks|
  {
    && DropAt(ticks, d)
    && forall k :: d < k < |ticks| ==> !ticks[k].High() && !ClearAt(ticks, k)
  }

  lemma Extend(ticks: seq<Tick>, t: Tick)
    ensures After(ticks + [t]) == Next(After(ticks), t)
    ensures forall k :: 0 <= k < |ticks| ==> Sent(ticks + [t], k) == Sent(ticks, k)
    ensures Sent(ticks + [t], |ticks|) == Attempt(After(ticks), t)
  {
    var longer := ticks + [t];
    assert longer[..|ticks|] == ticks;
    forall k | 0 <= k < |ticks|
      ensures Sent(longer, k) == Sent(ticks, k)
    {
      assert longer[..k] == ticks[..k];
    }
  }

  lemma QuietExtend(ticks: seq<Tick>, t: Tick, d: nat)
    requires d < |ticks|
    ensures QuietSince(ticks + [t], d) <==> QuietSince(ticks, d) && !t.High() && !ClearAt(ticks + [t], |ticks|)
  {
    var longer := ticks + [t];
    Extend(ticks, t);
    assert forall k :: 0 <= k < |ticks| ==> longer[k] == ticks[k];
    if QuietSince(longer, d) {
      forall k | d < k < |ticks|
        ensures !ticks[k].High() && !ClearAt(ticks, k)
      {
        assert !longer[k].High() && !ClearAt(longer, k);
      }
    }
  }

  /** Waiting to clear the flag means a drop with nothing but quiet since, and the other way round. */
  lemma {:induction false} WaitingIffQuiet(ticks: seq<Tick>)
    ensures var s := After(ticks);
            && (s.waiting ==> s.lastAnnUsage <= 90)
            && (s.waiting ==> exists d :: 0 <= d < |ticks| && QuietSince(ticks, d))
            && (forall d :: 0 <= d < |ticks| && QuietSince(ticks, d) ==>
                 s.waiting && s.dropped == Some(ticks[d].dropTime))
  {
    if ticks != [] {
      var n := |ticks| - 1;
      var init, t := ticks[..n], ticks[n];
      assert init + [t] == ticks;
      WaitingIffQuiet(init);
      Extend(init, t);
      if After(ticks).waiting {
        if DropAt(ticks, n) {
          assert QuietSince(ticks, n);
        } else {
          var d :| 0 <= d < |init| && QuietSince(init, d);
          QuietExtend(init, t, d);
        }
      }
      forall d | 0 <= d < |ticks| && QuietSince(ticks, d)
        ensures After(ticks).waiting && After(ticks).dropped == Some(ticks[d].dropTime)
      {
        if d < n {
          QuietExtend(init, t, d);
        }
      }
    }
  }

  /** isCpuBusy=false is sent at a tick exactly when its sample is low and a confirmed drop lies at least five
      seconds back, with no high sample and no confirmed clear since. */
  lemma ClearedExactlyAfterQuiet(ticks: seq<Tick>, t: Tick)
    ensures (Attempt(After(ticks), t).Some? && !Attempt(After(ticks), t).value.busy) <==>
            t.Low() && exists d :: 0 <= d < |ticks| && QuietSince(ticks, d) && ticks[d].dropTime <= t.now - HOLD
  {
    WaitingIffQuiet(ticks);
  }

  // ---- The flag that is out there ------------------------------------------

  /** The last message whose annotations were written. */
  function Published(ticks: seq<Tick>): Option<Msg> {
    if ticks == [] then None
    else
      var n := |ticks| - 1;
      if !ticks[n].reply.Refused? && Sent(ticks, n).Some? then Sent(ticks, n) else Published(ticks[..n])
  }

  lemma PublishedExtend(ticks: seq<Tick>, t: Tick)
    ensures Published(ticks + [t]) ==
            if !t.reply.Refused? && Attempt(After(ticks), t).Some? then Attempt(After(ticks), t) else Published(ticks)
  {
    Extend(ticks, t);
    assert (ticks + [t])[..|ticks|] == ticks;
  }

  predicate BusyOut(ticks: seq<Tick>) {
    Published(ticks).Some? && Published(ticks).value.busy
  }

  /** A clear was written although its client got an error. */
  ghost predicate SilentClearAt(ticks: seq<Tick>, k: nat)
    requires k < |ticks|
  {
    ticks[k].reply.Unconfirmed? && Sent(ticks, k).Some? && !Sent(ticks, k).value.busy
  }

  lemma SilentExtend(ticks: seq<Tick>, t: Tick, d: nat)
    requires d < |ticks|
    ensures (forall k :: d < k < |ticks| + 1 ==> !SilentClearAt(ticks + [t], k)) <==>
            (forall k :: d < k < |ticks| ==> !SilentClearAt(ticks, k)) && !SilentClearAt(ticks + [t], |ticks|)
  {
    Extend(ticks, t);
    forall k | d < k < |ticks|
      ensures SilentClearAt(ticks + [t], k) <==> SilentClearAt(ticks, k)
    {
      assert (ticks + [t])[k] == ticks[k];
    }
  }

  /** While the loop remembers a high usage, the flag out there is true. While it waits to clear the flag, the flag
      is true too, unless a clear was written silently since the drop. */
  lemma {:induction false} PendingMeansBusy(ticks: seq<Tick>)
    ensures 90 < After(ticks).lastAnnUsage ==> BusyOut(ticks)
    ensures forall d :: 0 <= d < |ticks| && QuietSince(ticks, d) ==>
              (BusyOut(ticks) <==> forall k :: d < k < |ticks| ==> !SilentClearAt(ticks, k))
    decreases |ticks|
  {
    if ticks != [] {
      var n := |ticks| - 1;
      var init, t := ticks[..n], ticks[n];
      assert init + [t] == ticks;
      PendingMeansBusy(init);
      PublishedExtend(init, t);
      WaitingIffQuiet(init);
      Extend(init, t);
      forall d | 0 <= d < |ticks| && QuietSince(ticks, d)
        ensures BusyOut(ticks) <==> forall k :: d < k < |ticks| ==> !SilentClearAt(ticks, k)
      {
        if d < n {
          QuietExtend(init, t, d);
          SilentExtend(init, t, d);
        }
      }
    }
  }

  predicate Pending(s: State) {
    90 < s.lastAnnUsage || s.waiting
  }

  /** The flag says busy and the loop does not mean to clear it. */
  predicate Stranded(ticks: seq<Tick>) {
    BusyOut(ticks) && !Pending(After(ticks))
  }

  /** The tick of the last message the client knows to be out. */
  function LastConfirmed(ticks: seq<Tick>): (r: Option<nat>)
    ensures r.Some? ==> r.value < |ticks| && ticks[r.value].usage.Some? && ticks[r.value].reply.Confirmed?
  {
    if ticks == [] then None
    else
      var n := |ticks| - 1;
      if ticks[n].reply.Confirmed? && Sent(ticks, n).Some? then Some(n) else LastConfirmed(ticks[..n])
  }

  /** The loop's variables tell its usage and its time. */
  lemma {:induction false} RemembersConfirmed(ticks: seq<Tick>)
    ensures var k, s := LastConfirmed(ticks), After(ticks);
            && s.lastAnnUsage == (if k.Some? then ticks[k.value].usage.value else -1)
            && s.lastAnnTime == (if k.Some? then Some(ticks[k.value].annTime) else None)
    decreases |ticks|
  {
    if ticks != [] {
      RemembersConfirmed(ticks[..|ticks| - 1]);
    }
  }

  /** The last confirmed message carried a high usage. */
  predicate HighOut(ticks: seq<Tick>) {
    var k := LastConfirmed(ticks);
    k.Some? && 90 < ticks[k.value].usage.value
  }

  /** Tick `j` strands the flag, and no confirmed high sample has released it since. Its high sample is not confirmed,
      the last confirmed message is not a high one, and the flag is true afterwards: written by that very publish,
      or left over. */
  ghost predicate StrandsAt(ticks: seq<Tick>, j: nat)
    requires j < |ticks|
  {
    && ticks[j].High() && !ticks[j].reply.Confirmed?
    && !HighOut(ticks[..j]) && (ticks[j].reply.Unconfirmed? || BusyOut(ticks[..j]))
    && forall k :: j < k < |ticks| && ticks[k].High() ==> !ticks[k].reply.Confirmed?
  }

  lemma StrandedStep(ticks: seq<Tick>, t: Tick)
    ensures Stranded(ticks + [t]) <==>
            if t.High() then
              !t.reply.Confirmed? && After(ticks).lastAnnUsage <= 90 && (t.reply.Unconfirmed? || BusyOut(ticks))
            else Stranded(ticks)
  {
    Extend(ticks, t);
    PublishedExtend(ticks, t);
  }

  lemma StrandsAtExtend(ticks: seq<Tick>, t: Tick, j: nat)
    requires j < |ticks|
    ensures StrandsAt(ticks + [t], j) <==> StrandsAt(ticks, j) && !(t.High() && t.reply.Confirmed?)
  {
    var longer := ticks + [t];
    assert longer[j] == ticks[j] && longer[..j] == ticks[..j];
    assert longer[|ticks|] == t;
    assert forall k :: j < k < |ticks| ==> longer[k] == ticks[k];
  }

  /** While the flag is stranded no high usage is remembered, so a further high sample that is not confirmed strands
      it again. */
  lemma {:induction false} StrandedIffHistory(ticks: seq<Tick>)
    ensures Stranded(ticks) <==> exists j :: 0 <= j < |ticks| && StrandsAt(ticks, j)
    decreases |ticks|
  {
    if ticks != [] {
      var n := |ticks| - 1;
      var init, t := ticks[..n], ticks[n];
      assert init + [t] == ticks;
      StrandedIffHistory(init);
      StrandedStep(init, t);
      RemembersConfirmed(init);
      if j :| 0 <= j < n && StrandsAt(init, j) {
        StrandsAtExtend(init, t, j);
      }
      if Stranded(ticks) && t.High() {
        assert StrandsAt(ticks, n);
      }
      if j :| 0 <= j < n && StrandsAt(ticks, j) {
        StrandsAtExtend(init, t, j);
      }
    }
  }

  /** Once stranded, low samples never lead to another publish, however long they go on. */
  lemma {:induction false} StrandedForGood(ticks: seq<Tick>, more: seq<Tick>)
    requires Stranded(ticks) && forall k :: 0 <= k < |more| ==> !more[k].High()
    ensures Stranded(ticks + more)
    ensures forall k :: |ticks| <= k < |ticks + more| ==> Sent(ticks + more, k) == None
    decreases |more|
  {
    if more == [] {
      assert ticks + more == ticks;
    } else {
      var n := |more| - 1;
      StrandedForGood(ticks, more[..n]);
      StrandedStep(ticks + more[..n], more[n]);
      Extend(ticks + more[..n], more[n]);
      assert ticks + more == ticks + more[..n] + [more[n]];
    }
  }

  ghost predicate Quiet(more: seq<Tick>) {
    forall k :: 0 <= k < |more| ==> !more[k].High()
  }

  ghost predicate SilentAfter(ticks: seq<Tick>, more: seq<Tick>) {
    forall k :: |ticks| <= k < |ticks + more| ==> Sent(ticks + more, k) == None
  }

  /** So being stranded is exactly this: the flag is true, and no run of low samples ever changes that. */
  lemma StrandedMeansSilent(ticks: seq<Tick>)
    ensures Stranded(ticks) <==> BusyOut(ticks) && forall more :: Quiet(more) ==> SilentAfter(ticks, more)
  {
    if Stranded(ticks) {
      forall more | Quiet(more)
        ensures SilentAfter(ticks, more)
      {
        StrandedForGood(ticks, more);
      }
    }
    var s := After(ticks);
    if Pending(s) {
      var now := if s.dropped.Some? then s.dropped.value + HOLD else 0;
      var low := Tick(now, now, now, Some(0), Confirmed);
      Extend(ticks, low);
      assert Sent(ticks + [low], |ticks|).Some?;
      assert Quiet([low]) && !SilentAfter(ticks, [low]);
    }
  }

  /** It happens after a confirmed drop: 95 published, drop to 10 published, then 95 again with a refused publish. */
  lemma StrandingHappens()
    ensures exists ticks: seq<Tick> :: Stranded(ticks) && forall k :: 0 <= k < |ticks| ==> !ticks[k].reply.Unconfirmed?
  {
    var a := Tick(0, 0, 0, Some(95), Confirmed);
    var b := Tick(SECOND, SECOND, SECOND, Some(10), Confirmed);
    var c := Tick(2 * SECOND, 2 * SECOND, 2 * SECOND, Some(95), Refused);
    Extend([], a);
    PublishedExtend([], a);
    Extend([a], b);
    PublishedExtend([a], b);
    assert [] + [a] == [a] && [a] + [b] == [a, b] && [a, b] + [c] == [a, b, c];
    StrandedStep([a, b], c);
    assert Stranded([a, b, c]);
  }

  /** And after a single timeout: one high sample whose publish is written but not confirmed. */
  lemma TimeoutStrands(t: Tick)
    requires t.High() && t.reply.Unconfirmed?
    ensures Stranded([t])
  {
    assert [] + [t] == [t];
    StrandedStep([], t);
  }

  // ---- Every publish, in terms of the history ------------------------------

  /** The samples over 90 percent since the last one that was not. */
  function HighRun(ticks: seq<Tick>): nat {
    if ticks == [] then 0
    else
      var n := |ticks| - 1;
      match ticks[n].usage
      case None => HighRun(ticks[..n])
      case Some(u) => if u <= 90 then 0 else HighRun(ticks[..n]) + 1
  }

  lemma {:induction false} HighRunIsDuration(ticks: seq<Tick>)
    ensures After(ticks).over90 == HighRun(ticks)
    decreases |ticks|
  {
    if ticks != [] {
      HighRunIsDuration(ticks[..|ticks| - 1]);
    }
  }

  /** A high sample stays unpublished only if the last confirmed publish carried the same usage, at most five seconds
      ago. */
  predicate FreshlyOut(ticks: seq<Tick>, u: int, now: int) {
    var k := LastConfirmed(ticks);
    k.Some? && ticks[k.value].usage == Some(u) && now - ticks[k.value].annTime <= 5 * SECOND
  }

  ghost predicate QuietForFive(ticks: seq<Tick>, now: int) {
    exists d :: 0 <= d < |ticks| && QuietSince(ticks, d) && 5 * SECOND <= now - ticks[d].dropTime
  }

  lemma HighPublishExact(ticks: seq<Tick>, t: Tick)
    requires t.usage.Some? && 90 < t.usage.value
    ensures Attempt(After(ticks), t) ==
            if FreshlyOut(ticks, t.usage.value, t.now) then None
            else Some(Msg(t.usage.value, HighRun(ticks) + 1, true))
  {
    RemembersConfirmed(ticks);
    HighRunIsDuration(ticks);
  }

  lemma LowPublishExact(ticks: seq<Tick>, t: Tick)
    requires t.usage.Some? && t.usage.value <= 90
    ensures Attempt(After(ticks), t) ==
            if HighOut(ticks) then Some(Msg(t.usage.value, 0, true))
            else if QuietForFive(ticks, t.now) then Some(Msg(t.usage.value, 0, false))
            else None
  {
    RemembersConfirmed(ticks);
    WaitingIffQuiet(ticks);
  }

  /** What the loop tries to publish at any tick after any run, without its variables. */
  ghost function Expected(ticks: seq<Tick>, t: Tick): Option<Msg> {
    match t.usage
    case None => None
    case Some(u) =>
      if 90 < u then (if FreshlyOut(ticks, u, t.now) then None else Some(Msg(u, HighRun(ticks) + 1, true)))
      else if HighOut(ticks) then Some(Msg(u, 0, true))
      else if QuietForFive(ticks, t.now) then Some(Msg(u, 0, false))
      else None
  }

  lemma PublishExact(ticks: seq<Tick>, t: Tick)
    ensures Attempt(After(ticks), t) == Expected(ticks, t)
    ensures SECOND == 1000000000
  {
    if t.usage.Some? {
      if 90 < t.usage.value {
        HighPublishExact(ticks, t);
      } else {
        LowPublishExact(ticks, t);
      }
    }
  }

  /** Usage is taken between a reading and the last earlier one that succeeded, or the one before the loop. */
  lemma {:induction false} LastSampleExact(first: CpuSample, readings: seq<Reading>, j: nat)
    requires j <= |readings| && forall k :: j <= k < |readings| ==> readings[k].sample.None?
    requires 0 < j ==> readings[j - 1].sample.Some?
    ensures LastSample(first, readings) == if j == 0 then first else readings[j - 1].sample.value
    decreases |readings|
  {
    if j < |readings| {
      LastSampleExact(first, readings[..|readings| - 1], j);
    }
  }

  /** Entry `i` of the log, from the samples and the earlier entries' outcomes alone. */
  lemma LogExact(first: CpuSample, readings: seq<Reading>, i: nat, j: nat)
    requires j <= i < |readings| && forall k :: j <= k < i ==> readings[k].sample.None?
    requires 0 < j ==> readings[j - 1].sample.Some?
    ensures var ticks, r := Ticks(first, readings), readings[i];
            var prev := if j == 0 then first else readings[j - 1].sample.value;
            && |Log(ticks)| == |readings| && Log(ticks)[i] == Expected(ticks[..i], ticks[i])
            && ticks[i] == Tick(r.now, r.annTime, r.dropTime,
                                if r.sample.None? then None else Some(ComputeUsage(prev, r.sample.value)), r.reply)
  {
    var ticks := Ticks(first, readings);
    LogIsSent(ticks);
    PublishExact(ticks[..i], ticks[i]);
    LastSampleExact(first, readings[..i], j);
  }

  // ---- Bounded response ----------------------------------------------------

  /** A tick at which a clear is due for a drop at time `drop`. */
  predicate Due(t: Tick, drop: int) {
    t.Low() && drop + HOLD <= t.now
  }

  ghost predicate ClearedWithin(more: seq<Tick>, drop: int) {
    exists j :: 0 <= j < |more| && Due(more[j], drop) && more[j].reply.Confirmed?
  }

  lemma ClearedExtend(more: seq<Tick>, t: Tick, drop: int)
    ensures ClearedWithin(more + [t], drop) <==> ClearedWithin(more, drop) || (Due(t, drop) && t.reply.Confirmed?)
  {
    var longer := more + [t];
    assert longer[|more|] == t;
    assert forall j :: 0 <= j < |more| ==> longer[j] == more[j];
  }

  lemma {:induction false} AfterDrop(ticks: seq<Tick>, drop: int, more: seq<Tick>)
    requires After(ticks).waiting && After(ticks).dropped == Some(drop)
    requires forall k :: 0 <= k < |more| ==> !more[k].High()
    ensures var s := After(ticks + more);
            s.lastAnnUsage <= 90 && s.dropped == Some(drop) && (s.waiting <==> !ClearedWithin(more, drop))
    decreases |more|
  {
    if more == [] {
      assert ticks + more == ticks;
      WaitingIffQuiet(ticks);
    } else {
      var n := |more| - 1;
      AfterDrop(ticks, drop, more[..n]);
      Extend(ticks + more[..n], more[n]);
      assert ticks + more == ticks + more[..n] + [more[n]];
      ClearedExtend(more[..n], more[n], drop);
      assert more == more[..n] + [more[n]];
    }
  }

  lemma ClearResponse(ticks: seq<Tick>, drop: int, more: seq<Tick>, k: nat)
    requires After(ticks).waiting && After(ticks).dropped == Some(drop)
    requires k < |more| && forall i :: 0 <= i < |more| ==> !more[i].High()
    ensures Sent(ticks + more, |ticks| + k) ==
            if Due(more[k], drop) && !ClearedWithin(more[..k], drop)
            then Some(Msg(more[k].usage.value, 0, false)) else None
  {
    AfterDrop(ticks, drop, more[..k]);
    assert (ticks + more)[..|ticks| + k] == ticks + more[..k];
  }

  lemma DropStep(ticks: seq<Tick>, drop: Tick)
    requires 90 < After(ticks).lastAnnUsage && drop.Low() && drop.reply.Confirmed?
    ensures Attempt(After(ticks), drop) == Some(Msg(drop.usage.value, 0, true))
    ensures After(ticks + [drop]).waiting && After(ticks + [drop]).dropped == Some(drop.dropTime)
  {
    Extend(ticks, drop);
  }

  /** After a confirmed high usage, the first low sample publishes the drop at once; then, while samples stay low,
      the clear is sent at every due tick until one is confirmed, and nothing else is ever sent. */
  lemma BoundedResponse(ticks: seq<Tick>, drop: Tick, more: seq<Tick>, k: nat)
    requires 90 < After(ticks).lastAnnUsage && drop.Low() && drop.reply.Confirmed?
    requires k < |more| && forall i :: 0 <= i < |more| ==> !more[i].High()
    ensures Attempt(After(ticks), drop) == Some(Msg(drop.usage.value, 0, true))
    ensures Sent((ticks + [drop]) + more, |ticks| + 1 + k) ==
            if Due(more[k], drop.dropTime) && !ClearedWithin(more[..k], drop.dropTime)
            then Some(Msg(more[k].usage.value, 0, false)) else None
  {
    DropStep(ticks, drop);
    ClearResponse(ticks + [drop], drop.dropTime, more, k);
  }

  // ---- Duration and staleness ----------------------------------------------

  function Sampled(ticks: seq<Tick>): nat {
    if ticks == [] then 0
    else Sampled(ticks[..|ticks| - 1]) + if ticks[|ticks| - 1].usage.Some? then 1 else 0
  }

  /** `ticks` splits at `p` just after its last low sample. */
  ghost predicate LastLowBefore(ticks: seq<Tick>, p: nat) {
    && p <= |ticks|
    && (p == 0 || ticks[p - 1].Low())
    && forall k :: p <= k < |ticks| ==> !ticks[k].Low()
  }

  /** The duration counts the samples since the last low one; failed reads and publishes do not matter. */
  lemma {:induction false} DurationIsTrailingBlock(ticks: seq<Tick>, p: nat)
    requires LastLowBefore(ticks, p)
    ensures After(ticks).over90 == Sampled(ticks[p..])
    decreases |ticks|
  {
    if ticks != [] {
      var n := |ticks| - 1;
      if p == |ticks| {
        assert ticks[p..] == [];
      } else {
        assert LastLowBefore(ticks[..n], p);
        DurationIsTrailingBlock(ticks[..n], p);
        assert ticks[p..][..n - p] == ticks[..n][p..];
      }
    }
  }

  /** The tick whose message is the published one. */
  function PublishedTick(ticks: seq<Tick>): (p: nat)
    requires Published(ticks).Some?
    ensures p < |ticks|
  {
    var n := |ticks| - 1;
    if !ticks[n].reply.Refused? && Sent(ticks, n).Some? then n else PublishedTick(ticks[..n])
  }

  ghost predicate AllConfirmed(ticks: seq<Tick>) {
    forall k :: 0 <= k < |ticks| ==> ticks[k].reply.Confirmed?
  }

  /** With every publish confirmed, the loop remembers the published message, and its duration lags by at most one
      second per tick since. */
  ghost predicate InStep(ticks: seq<Tick>) {
    var s := After(ticks);
    && (s.lastAnnUsage <= 90 ==> s.over90 == 0)
    && (90 < s.lastAnnUsage ==>
         && BusyOut(ticks)
         && var m, p := Published(ticks).value, PublishedTick(ticks);
            && m.usage == s.lastAnnUsage && s.lastAnnTime == Some(ticks[p].annTime)
            && 0 <= s.over90 - m.duration <= |ticks| - 1 - p)
  }

  lemma PublishingTickInStep(ticks: seq<Tick>, t: Tick)
    requires InStep(ticks) && t.reply.Confirmed? && Attempt(After(ticks), t).Some?
    ensures InStep(ticks + [t]) && PublishedTick(ticks + [t]) == |ticks|
    ensures Published(ticks + [t]) == Attempt(After(ticks), t)
  {
    Extend(ticks, t);
    PublishedExtend(ticks, t);
  }

  lemma SilentTickInStep(ticks: seq<Tick>, t: Tick)
    requires InStep(ticks) && Attempt(After(ticks), t).None?
    ensures InStep(ticks + [t])
    ensures Published(ticks + [t]) == Published(ticks)
    ensures Published(ticks).Some? ==> PublishedTick(ticks + [t]) == PublishedTick(ticks)
  {
    Extend(ticks, t);
    PublishedExtend(ticks, t);
    assert (ticks + [t])[..|ticks|] == ticks;
    if 90 < After(ticks).lastAnnUsage {
      assert (ticks + [t])[PublishedTick(ticks)] == ticks[PublishedTick(ticks)];
    }
  }

  lemma {:induction false} StaysInStep(ticks: seq<Tick>)
    requires AllConfirmed(ticks)
    ensures InStep(ticks)
    decreases |ticks|
  {
    if ticks != [] {
      var n := |ticks| - 1;
      assert ticks == ticks[..n] + [ticks[n]];
      StaysInStep(ticks[..n]);
      if Attempt(After(ticks[..n]), ticks[n]).Some? {
        PublishingTickInStep(ticks[..n], ticks[n]);
      } else {
        SilentTickInStep(ticks[..n], ticks[n]);
      }
    }
  }

  /** How a Go ticker of one second serves the loop: tick k fires at fires[k] and is taken at taken[k]. The channel
      holds one tick, so the next one kept fires only once it is empty again; others are dropped. */
  ghost predicate Ticker(ticks: seq<Tick>, fires: seq<int>, taken: seq<int>) {
    && |fires| == |taken| == |ticks|
    && (forall k :: 0 <= k < |ticks| ==> fires[k] <= taken[k] <= ticks[k].now)
    && (forall k :: 0 < k < |ticks| ==> taken[k - 1] <= fires[k] && fires[k - 1] + SECOND <= fires[k])
  }

  lemma {:induction false} FiresApart(ticks: seq<Tick>, fires: seq<int>, taken: seq<int>, i: nat, k: nat)
    requires Ticker(ticks, fires, taken) && i <= k < |ticks|
    ensures fires[i] + (k - i) * SECOND <= fires[k]
    decreases k - i
  {
    if i < k {
      FiresApart(ticks, fires, taken, i, k - 1);
    }
  }

  /** Between a tick that is taken and a later one, at most one tick comes early. */
  lemma TickerSpacing(ticks: seq<Tick>, fires: seq<int>, taken: seq<int>, i: nat, k: nat)
    requires Ticker(ticks, fires, taken) && i < k < |ticks|
    ensures taken[i] + (k - i - 1) * SECOND <= ticks[k].now
    ensures taken[i] == fires[i] ==> taken[i] + (k - i) * SECOND <= ticks[k].now
  {
    FiresApart(ticks, fires, taken, i + 1, k);
    FiresApart(ticks, fires, taken, i, k);
  }

  /** A high sample that is not published repeats the published usage, of at most five seconds ago. */
  lemma SilentHighIsRecent(ticks: seq<Tick>, t: Tick)
    requires InStep(ticks) && t.High() && Attempt(After(ticks), t).None?
    ensures Published(ticks).Some? && 90 < After(ticks).lastAnnUsage
    ensures Published(ticks).value.usage == t.usage.value
    ensures t.now - ticks[PublishedTick(ticks)].annTime <= HOLD
  {}

  lemma SecondsCount(k: int, limit: nat, latency: nat)
    requires k * SECOND <= limit * SECOND + latency * SECOND
    ensures k <= limit + latency
  {}

  lemma SecondsSincePublish(init: seq<Tick>, t: Tick, fires: seq<int>, taken: seq<int>, latency: nat)
    requires InStep(init) && t.High() && Attempt(After(init), t).None? && Ticker(init + [t], fires, taken)
    requires forall k :: 0 <= k <= |init| ==> (init + [t])[k].annTime <= taken[k] + latency * SECOND
    ensures Published(init).Some?
    ensures |init| - PublishedTick(init) <= 6 + latency
    ensures taken == fires ==> |init| - PublishedTick(init) <= 5 + latency
  {
    SilentHighIsRecent(init, t);
    var p := PublishedTick(init);
    assert (init + [t])[p] == init[p] && (init + [t])[|init|] == t;
    TickerSpacing(init + [t], fires, taken, p, |init|);
    SecondsCount(|init| - p - 1, 5, latency);
    if taken == fires {
      SecondsCount(|init| - p, 5, latency);
    }
  }

  /** What is out there after a high sample that is in step. */
  lemma HighInStep(ticks: seq<Tick>, t: Tick)
    requires InStep(ticks + [t]) && t.High() && t.reply.Confirmed?
    ensures BusyOut(ticks + [t])
    ensures var m, s := Published(ticks + [t]).value, After(ticks + [t]);
            m.usage == t.usage.value && 0 <= s.over90 - m.duration <= |ticks| - PublishedTick(ticks + [t])
  {
    Extend(ticks, t);
  }

  /** Served by a one-second ticker, with every publish confirmed within `latency` seconds: after every high sample
      `t` the published usage is that sample, and the published duration is at most 6 + latency seconds short of the
      real one; at most 5 + latency if no tick has to wait in the channel. */
  lemma StalenessBound(init: seq<Tick>, t: Tick, fires: seq<int>, taken: seq<int>, latency: nat)
    requires AllConfirmed(init + [t]) && Ticker(init + [t], fires, taken) && t.High()
    requires forall k :: 0 <= k <= |init| ==> (init + [t])[k].annTime <= taken[k] + latency * SECOND
    ensures BusyOut(init + [t])
    ensures var m, s := Published(init + [t]).value, After(init + [t]);
            && m.usage == t.usage.value
            && 0 <= s.over90 - m.duration <= 6 + latency
            && (taken == fires ==> s.over90 - m.duration <= 5 + latency)
  {
    assert AllConfirmed(init) && t.reply.Confirmed? by {
      assert (init + [t])[|init|] == t;
      assert forall k :: 0 <= k < |init| ==> (init + [t])[k] == init[k];
    }
    StaysInStep(init);
    if Attempt(After(init), t).Some? {
      PublishingTickInStep(init, t);
    } else {
      SilentTickInStep(init, t);
      SecondsSincePublish(init, t, fires, taken, latency);
    }
    HighInStep(init, t);
  }
}
