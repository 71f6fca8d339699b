/** The receive statistics and cycle-counter bookkeeping as functions of the event trace of a run. */
module RxStatistics {
  import opened Bytes
  import opened Wrappers
  import opened Rt
  import opened DataBuilder
  import opened Cyclic
  import opened CyclicRuns

  /** What the receiver saw: usable frames, frames the device disowned, and elapsed watchdog periods. */
  datatype Event =
    | AliveFrame(at: int, counter: u16)
    | DisownedFrame(counter: u16)
    | Timeout

  /** The events of one receive pass. */
  function EventsOf(setup: Setup, c: Shared, reception: Reception, now: int): seq<Event>
    requires NotBefore(c, now)
  {
    match reception
    case Nothing => if TimesOut(setup, c, now) then [Timeout] else []
    case Frame(data) =>
      var f := Relevant(setup, data);
      var frame := if f.None? then []
                   else if FrameIsAlive(f.value) then [AliveFrame(now, f.value.cycleCounter)]
                   else [DisownedFrame(f.value.cycleCounter)];
      frame + if TimesOut(setup, ProcessInputFrame(setup, c, data, now), now) then [Timeout] else []
  }

  function Trace(setup: Setup, start: Run, acts: seq<Act>): seq<Event>
    requires Ready(setup, start)
  {
    if acts == [] then []
    else
      var before, a := acts[..|acts| - 1], acts[|acts| - 1];
      var r := After(setup, start, before);
      Trace(setup, start, before) + if a.Rx? then EventsOf(setup, r.c, a.r, r.clock + a.wait) else []
  }

  // -------------------------------------------------------------------------
  // What a trace says
  // -------------------------------------------------------------------------

  /** The arrival times of the usable frames. */
  function AliveTimes(tr: seq<Event>): seq<int> {
    if tr == [] then []
    else
      var last := tr[|tr| - 1];
      var times := AliveTimes(tr[..|tr| - 1]);
      if last.AliveFrame? then times + [last.at] else times
  }

  /** The successive differences of a list of times. */
  function Differences(times: seq<int>): seq<int> {
    if |times| < 2 then []
    else Differences(times[..|times| - 1]) + [times[|times| - 1] - times[|times| - 2]]
  }

  /** The intervals between usable frames with no other event in between. */
  function CleanIntervals(tr: seq<Event>): seq<int> {
    if |tr| < 2 then []
    else
      var last, previous := tr[|tr| - 1], tr[|tr| - 2];
      var clean := CleanIntervals(tr[..|tr| - 1]);
      if last.AliveFrame? && previous.AliveFrame? then clean + [last.at - previous.at] else clean
  }

  function Sum(xs: seq<int>): int {
    if xs == [] then 0 else Sum(xs[..|xs| - 1]) + xs[|xs| - 1]
  }

  /** The last of a list, zero if there is none. */
  function LastOf(xs: seq<int>): int {
    if xs == [] then 0 else xs[|xs| - 1]
  }

  /** `m` is the greatest of `xs` and `least`. */
  predicate IsMax(m: int, xs: seq<int>, least: int) {
    && (m == least || exists k :: 0 <= k < |xs| && xs[k] == m)
    && m >= least && forall k :: 0 <= k < |xs| ==> xs[k] <= m
  }

  predicate IsMin(m: int, xs: seq<int>, greatest: int) {
    && (m == greatest || exists k :: 0 <= k < |xs| && xs[k] == m)
    && m <= greatest && forall k :: 0 <= k < |xs| ==> xs[k] >= m
  }

  /** How far each interval is from the nominal cycle. */
  function Jitters(intervals: seq<int>, target: nat): (r: seq<int>)
    ensures |r| == |intervals|
    ensures forall k :: 0 <= k < |r| ==> r[k] == if intervals[k] < target then target - intervals[k] else intervals[k] - target
  {
    seq(|intervals|, k requires 0 <= k < |intervals| => if intervals[k] < target then target - intervals[k] else intervals[k] - target)
  }

  /** The cycle counters received, usable or not. */
  function Counters(tr: seq<Event>): seq<u16> {
    if tr == [] then []
    else
      var last := tr[|tr| - 1];
      var counters := Counters(tr[..|tr| - 1]);
      if last.Timeout? then counters else counters + [last.counter]
  }

  function Disownments(tr: seq<Event>): nat {
    if tr == [] then 0 else Disownments(tr[..|tr| - 1]) + if tr[|tr| - 1].DisownedFrame? then 1 else 0
  }

  function Timeouts(tr: seq<Event>): nat {
    if tr == [] then 0 else Timeouts(tr[..|tr| - 1]) + if tr[|tr| - 1].Timeout? then 1 else 0
  }

  /** How a received counter relates to the one before it. */
  datatype Order = Repeat | Expected | Late | Gap(frames: nat)

  function OrderOf(prev: u16, rx: u16, step: nat): Order {
    if rx == prev then Repeat
    else if rx == (prev + step) % 0x1_0000 then Expected
    else if (rx - prev) % 0x1_0000 > 0x8000 then Late
    else Gap(Skipped((rx - prev) % 0x1_0000, step))
  }

  /** Whole steps a forward distance leaves out; with no step, or under two, none. */
  function Skipped(distance: nat, step: nat): nat {
    if step == 0 || distance < 2 * step then 0 else distance / step - 1
  }

  lemma SkippedIsGap(distance: nat, step: nat)
    ensures Skipped(distance, step) == GapFrames(distance, step)
  {
    if step > 0 && distance < 2 * step {
      QuotientUnder(distance, step);
    } else if step > 0 {
      QuotientOver(distance, step);
    }
  }

  lemma QuotientUnder(d: nat, step: nat)
    requires step > 0 && d < 2 * step
    ensures d / step <= 1
  {}

  lemma QuotientOver(d: nat, step: nat)
    requires step > 0 && d >= 2 * step
    ensures d / step >= 2
  {
    var q := d / step;
    assert d == q * step + d % step;
    assert q * step > step;
  }

  datatype Tally = Tally(repeats: nat, late: nat, gapFrames: nat)

  /** Repeats, late frames and frames skipped in a list of received counters. */
  function TallyOf(counters: seq<u16>, step: nat): Tally {
    if |counters| < 2 then Tally(0, 0, 0)
    else
      var t := TallyOf(counters[..|counters| - 1], step);
      match OrderOf(counters[|counters| - 2], counters[|counters| - 1], step)
      case Repeat => t.(repeats := t.repeats + 1)
      case Expected => t
      case Late => t.(late := t.late + 1)
      case Gap(n) => t.(gapFrames := t.gapFrames + n)
  }

  // -------------------------------------------------------------------------
  // The statistics tell the trace
  // -------------------------------------------------------------------------

  predicate TellsIntervals(st: Stats, target: nat, tr: seq<Event>) {
    var clean := CleanIntervals(tr);
    && st.rxIntervalCount == |clean|
    && st.rxIntervalSum == Sum(clean)
    && IsMin(st.minRxInterval, clean, 0x8000_0000)
    && IsMax(st.maxRxJitter, Jitters(clean, target), 0)
    && IsMax(st.maxRxInterval, Differences(AliveTimes(tr)), 0)
    && st.lastRxInterval == LastOf(Differences(AliveTimes(tr)))
  }

  predicate TellsLast(st: Stats, tr: seq<Event>) {
    var times := AliveTimes(tr);
    && st.lastAcceptedTime == (if times == [] then None else Some(times[|times| - 1]))
    && st.intervalDisturbed == (tr != [] && !tr[|tr| - 1].AliveFrame?)
  }

  predicate TellsCounters(c: Shared, step: nat, tr: seq<Event>) {
    var counters := Counters(tr);
    var t := TallyOf(counters, step);
    && c.lastRxCounter == (if counters == [] then None else Some(counters[|counters| - 1]))
    && c.stats.framesReceived == |counters|
    && c.stats.framesInvalid == Disownments(tr)
    && c.stats.framesDuplicate == t.repeats && c.stats.framesOutOfOrder == t.late
    && c.stats.framesMissed == t.gapFrames + Timeouts(tr)
  }

  predicate Tells(setup: Setup, c: Shared, tr: seq<Event>) {
    && TellsIntervals(c.stats, setup.input.CycleTimeUs(), tr)
    && TellsLast(c.stats, tr)
    && TellsCounters(c, setup.RxStep(), tr)
  }

  lemma LastAliveIsLast(tr: seq<Event>)
    ensures tr == [] ==> AliveTimes(tr) == []
    ensures tr != [] && tr[|tr| - 1].AliveFrame? ==>
              AliveTimes(tr) != [] && AliveTimes(tr)[|AliveTimes(tr)| - 1] == tr[|tr| - 1].at
  {}

  lemma IsMaxAppend(m: int, xs: seq<int>, least: int, x: int)
    requires IsMax(m, xs, least)
    ensures IsMax(if x > m then x else m, xs + [x], least)
  {
    var ys := xs + [x];
    assert ys[|xs|] == x;
    assert forall k :: 0 <= k < |xs| ==> ys[k] == xs[k];
  }

  lemma IsMinAppend(m: int, xs: seq<int>, greatest: int, x: int)
    requires IsMin(m, xs, greatest)
    ensures IsMin(if x < m then x else m, xs + [x], greatest)
  {
    var ys := xs + [x];
    assert ys[|xs|] == x;
    assert forall k :: 0 <= k < |xs| ==> ys[k] == xs[k];
  }

  lemma {:induction false} SumAppend(xs: seq<int>, x: int)
    ensures Sum(xs + [x]) == Sum(xs) + x
  {
    assert (xs + [x])[..|xs|] == xs;
  }

  lemma {:induction false} TimesAppend(tr: seq<Event>, e: Event)
    ensures AliveTimes(tr + [e]) == if e.AliveFrame? then AliveTimes(tr) + [e.at] else AliveTimes(tr)
    ensures CleanIntervals(tr + [e]) ==
            if e.AliveFrame? && tr != [] && tr[|tr| - 1].AliveFrame? then CleanIntervals(tr) + [e.at - tr[|tr| - 1].at]
            else CleanIntervals(tr)
  {
    var all := tr + [e];
    assert all[..|tr|] == tr;
    assert tr != [] ==> all[|tr| - 1] == tr[|tr| - 1];
  }

  lemma {:induction false} DifferencesAppend(times: seq<int>, at: int)
    ensures Differences(times + [at]) == if times == [] then Differences(times) else Differences(times) + [at - times[|times| - 1]]
  {
    var all := times + [at];
    assert all[..|times|] == times;
    assert times != [] ==> all[|times| - 1] == times[|times| - 1];
  }

  /** The statistics in terms of the clean intervals and of all intervals. */
  predicate TellsSpans(st: Stats, target: nat, clean: seq<int>, all: seq<int>) {
    && st.rxIntervalCount == |clean|
    && st.rxIntervalSum == Sum(clean)
    && IsMin(st.minRxInterval, clean, 0x8000_0000)
    && IsMax(st.maxRxJitter, Jitters(clean, target), 0)
    && IsMax(st.maxRxInterval, all, 0)
    && st.lastRxInterval == LastOf(all)
  }

  /** A clean interval ends. */
  lemma CleanSpan(st: Stats, target: nat, clean: seq<int>, all: seq<int>, at: int)
    requires TellsSpans(st, target, clean, all)
    requires st.lastAcceptedTime.Some? && st.lastAcceptedTime.value <= at && !st.intervalDisturbed
    ensures var x := at - st.lastAcceptedTime.value; TellsSpans(StatsAccepted(st, target, at), target, clean + [x], all + [x])
  {
    hide IsMax, IsMin, Sum;
    var x := at - st.lastAcceptedTime.value;
    var jitter := if x < target then target - x else x - target;
    SumAppend(clean, x);
    IsMinAppend(st.minRxInterval, clean, 0x8000_0000, x);
    IsMaxAppend(st.maxRxInterval, all, 0, x);
    IsMaxAppend(st.maxRxJitter, Jitters(clean, target), 0, jitter);
    assert Jitters(clean + [x], target) == Jitters(clean, target) + [jitter];
  }

  /** A disturbed one ends. */
  lemma DisturbedSpan(st: Stats, target: nat, clean: seq<int>, all: seq<int>, at: int)
    requires TellsSpans(st, target, clean, all)
    requires st.lastAcceptedTime.Some? && st.lastAcceptedTime.value <= at && st.intervalDisturbed
    ensures TellsSpans(StatsAccepted(st, target, at), target, clean, all + [at - st.lastAcceptedTime.value])
  {
    hide IsMax, IsMin, Sum, Jitters;
    IsMaxAppend(st.maxRxInterval, all, 0, at - st.lastAcceptedTime.value);
  }

  /** The first usable frame ends none. */
  lemma FirstSpan(st: Stats, target: nat, clean: seq<int>, all: seq<int>, at: int)
    requires TellsSpans(st, target, clean, all) && st.lastAcceptedTime == None
    ensures TellsSpans(StatsAccepted(st, target, at), target, clean, all)
  {
    hide IsMax, IsMin, Sum, Jitters;
  }

  lemma AcceptedIsLast(st: Stats, target: nat, at: int)
    requires st.lastAcceptedTime.Some? ==> st.lastAcceptedTime.value <= at
    ensures var st' := StatsAccepted(st, target, at); st'.lastAcceptedTime == Some(at) && !st'.intervalDisturbed
  {}

  lemma SpansTold(st: Stats, target: nat, tr: seq<Event>)
    ensures TellsIntervals(st, target, tr) <==> TellsSpans(st, target, CleanIntervals(tr), Differences(AliveTimes(tr)))
  {
    hide IsMax, IsMin, Sum, Jitters, AliveTimes, CleanIntervals, Differences;
  }

  lemma AcceptedTellsIntervals(st: Stats, target: nat, tr: seq<Event>, at: int, counter: u16)
    requires TellsIntervals(st, target, tr) && TellsLast(st, tr)
    requires st.lastAcceptedTime.Some? ==> st.lastAcceptedTime.value <= at
    ensures var st', tr' := StatsAccepted(st, target, at), tr + [AliveFrame(at, counter)];
            TellsIntervals(st', target, tr') && TellsLast(st', tr')
  {
    hide TellsSpans, StatsAccepted, IsMax, IsMin, Sum, Jitters, AliveTimes, CleanIntervals, Differences;
    TimesAppend(tr, AliveFrame(at, counter));
    LastAliveIsLast(tr);
    var times, clean := AliveTimes(tr), CleanIntervals(tr);
    DifferencesAppend(times, at);
    AcceptedIsLast(st, target, at);
    SpansTold(st, target, tr);
    if times == [] {
      FirstSpan(st, target, clean, Differences(times), at);
    } else if st.intervalDisturbed {
      DisturbedSpan(st, target, clean, Differences(times), at);
    } else {
      CleanSpan(st, target, clean, Differences(times), at);
    }
    SpansTold(StatsAccepted(st, target, at), target, tr + [AliveFrame(at, counter)]);
  }

  /** A disowned frame or a timeout ends the current interval without closing it. */
  lemma DisturbedTellsIntervals(st: Stats, target: nat, tr: seq<Event>, e: Event)
    requires TellsIntervals(st, target, tr) && TellsLast(st, tr) && !e.AliveFrame?
    ensures TellsIntervals(st, target, tr + [e]) && TellsLast(st.(intervalDisturbed := true), tr + [e])
  {
    hide IsMax, IsMin, Sum;
    TimesAppend(tr, e);
  }

  lemma {:induction false} TrackTells(c: Shared, step: nat, counters: seq<u16>, rx: u16)
    requires c.lastRxCounter == if counters == [] then None else Some(counters[|counters| - 1])
    ensures var c' := TrackCycleCounter(c, step, rx);
            var t, t' := TallyOf(counters, step), TallyOf(counters + [rx], step);
            && c'.lastRxCounter == Some(rx)
            && c'.stats.framesDuplicate - c.stats.framesDuplicate == t'.repeats - t.repeats
            && c'.stats.framesOutOfOrder - c.stats.framesOutOfOrder == t'.late - t.late
            && c'.stats.framesMissed - c.stats.framesMissed == t'.gapFrames - t.gapFrames
  {
    hide GapFrames, Skipped, TallyOf;
    TallyStep(counters, rx, step);
    if counters != [] {
      SkippedIsGap((rx - counters[|counters| - 1]) % 0x1_0000, step);
    }
  }

  lemma {:induction false} TallyStep(counters: seq<u16>, rx: u16, step: nat)
    ensures var t, t' := TallyOf(counters, step), TallyOf(counters + [rx], step);
            if counters == [] then t' == t == Tally(0, 0, 0)
            else
              match OrderOf(counters[|counters| - 1], rx, step)
              case Repeat => t' == t.(repeats := t.repeats + 1)
              case Expected => t' == t
              case Late => t' == t.(late := t.late + 1)
              case Gap(n) => t' == t.(gapFrames := t.gapFrames + n)
  {
    hide OrderOf;
    assert (counters + [rx])[..|counters|] == counters;
  }

  lemma {:induction false} CountersAppend(tr: seq<Event>, e: Event)
    ensures Counters(tr + [e]) == if e.Timeout? then Counters(tr) else Counters(tr) + [e.counter]
    ensures Disownments(tr + [e]) == Disownments(tr) + if e.DisownedFrame? then 1 else 0
    ensures Timeouts(tr + [e]) == Timeouts(tr) + if e.Timeout? then 1 else 0
  {
    assert (tr + [e])[..|tr|] == tr;
  }

  lemma AcceptedTells(setup: Setup, c: Shared, f: RtFrame, now: int, tr: seq<Event>)
    requires NotBefore(c, now) && Tells(setup, c, tr)
    ensures Tells(setup, Accepted(setup, c, f, now), tr + [AliveFrame(now, f.cycleCounter)])
  {
    hide TellsIntervals, TellsLast, TallyOf, Extract, AllIocsSet, TrackCycleCounter;
    var tr' := tr + [AliveFrame(now, f.cycleCounter)];
    var target := setup.input.CycleTimeUs();
    AcceptedTellsIntervals(c.stats, target, tr, now, f.cycleCounter);
    CountersAppend(tr, AliveFrame(now, f.cycleCounter));
    var st := c.stats.(framesReceived := c.stats.framesReceived + 1);
    var c1 := c.(stats := StatsAccepted(st, target, now));
    var c2 := if c1.state == Fault then Transition(c1, Running) else c1;
    TrackTells(c2, setup.RxStep(), Counters(tr), f.cycleCounter);
    AcceptedTouches(setup, c, f, now);
    SameTimes(StatsAccepted(c.stats, target, now), Accepted(setup, c, f, now).stats, target, tr');
  }

  /** Only these statistics speak of intervals. */
  lemma SameTimes(st: Stats, st': Stats, target: nat, tr: seq<Event>)
    requires st' == WithCounts(st.(framesReceived := st'.framesReceived, framesInvalid := st'.framesInvalid,
                                   consecutiveTimeouts := st'.consecutiveTimeouts, lastReceiveTime := st'.lastReceiveTime), st')
    requires TellsIntervals(st, target, tr) && TellsLast(st, tr)
    ensures TellsIntervals(st', target, tr) && TellsLast(st', tr)
  {}

  lemma DisownedTells(setup: Setup, c: Shared, f: RtFrame, tr: seq<Event>)
    requires Tells(setup, c, tr)
    ensures Tells(setup, Disowned(setup, c, f), tr + [DisownedFrame(f.cycleCounter)])
  {
    hide TellsIntervals, TellsLast, TallyOf, TrackCycleCounter;
    var e := DisownedFrame(f.cycleCounter);
    var target := setup.input.CycleTimeUs();
    DisturbedTellsIntervals(c.stats, target, tr, e);
    CountersAppend(tr, e);
    TrackTells(c.(stats := c.stats.(framesReceived := c.stats.framesReceived + 1, intervalDisturbed := true)),
               setup.RxStep(), Counters(tr), f.cycleCounter);
    DisownedTouchesOnlyCounters(setup, c, f);
    DisturbedIsNoInterval(c.stats, target, tr + [e]);
    SameTimes(c.stats.(intervalDisturbed := true), Disowned(setup, c, f).stats, target, tr + [e]);
  }

  lemma DisturbedIsNoInterval(st: Stats, target: nat, tr: seq<Event>)
    requires TellsIntervals(st, target, tr)
    ensures TellsIntervals(st.(intervalDisturbed := true), target, tr)
  {}

  lemma TimeoutTells(setup: Setup, c: Shared, now: int, tr: seq<Event>)
    requires Tells(setup, c, tr) && TimesOut(setup, c, now)
    ensures Tells(setup, CheckReceiveWatchdog(setup, c, now), tr + [Timeout])
  {
    hide TellsIntervals, TellsLast, TallyOf, CheckReceiveWatchdog;
    TimeoutTouches(setup, c, now);
    var target := setup.input.CycleTimeUs();
    DisturbedTellsIntervals(c.stats, target, tr, Timeout);
    CountersAppend(tr, Timeout);
    DisturbedIsNoInterval(c.stats, target, tr + [Timeout]);
    SameTimes(c.stats.(intervalDisturbed := true), CheckReceiveWatchdog(setup, c, now).stats, target, tr + [Timeout]);
  }

  lemma PassTells(setup: Setup, c: Shared, reception: Reception, now: int, tr: seq<Event>)
    requires NotBefore(c, now) && Tells(setup, c, tr)
    ensures Tells(setup, RxPass(setup, c, reception, now), tr + EventsOf(setup, c, reception, now))
  {
    hide Tells, Accepted, Disowned, FrameIsAlive, Relevant, HandleWatchdogTimeout, TimesOut;
    var c1, tr1 := c, tr;
    if reception.Frame? {
      c1 := ProcessInputFrame(setup, c, reception.data, now);
      if Relevant(setup, reception.data).Some? {
        var f := Relevant(setup, reception.data).value;
        if FrameIsAlive(f) {
          AcceptedTells(setup, c, f, now, tr);
          tr1 := tr + [AliveFrame(now, f.cycleCounter)];
        } else {
          DisownedTells(setup, c, f, tr);
          tr1 := tr + [DisownedFrame(f.cycleCounter)];
        }
      }
    }
    assert Tells(setup, c1, tr1);
    if TimesOut(setup, c1, now) {
      TimeoutTells(setup, c1, now, tr1);
      assert tr + EventsOf(setup, c, reception, now) == tr1 + [Timeout];
    } else {
      assert tr + EventsOf(setup, c, reception, now) == tr1;
    }
  }

  lemma OthersTell(setup: Setup, r: Run, a: Act, tr: seq<Event>)
    requires Ready(setup, r) && !a.Rx? && Tells(setup, r.c, tr)
    ensures Tells(setup, Do(setup, r, a).c, tr)
  {
    hide TellsIntervals, TellsLast, BuildEthernetFrame, RxPass, TallyOf;
    SameTimesSent(r.c.stats, setup.input.CycleTimeUs(), tr);
  }

  lemma SameTimesSent(st: Stats, target: nat, tr: seq<Event>)
    requires TellsIntervals(st, target, tr) && TellsLast(st, tr)
    ensures TellsIntervals(st.(framesSent := st.framesSent + 1), target, tr) && TellsLast(st.(framesSent := st.framesSent + 1), tr)
  {}

  lemma DoTells(setup: Setup, r: Run, a: Act, tr: seq<Event>)
    requires Ready(setup, r) && Tells(setup, r.c, tr)
    ensures Tells(setup, Do(setup, r, a).c, tr + if a.Rx? then EventsOf(setup, r.c, a.r, r.clock + a.wait) else [])
  {
    hide Do, Tells, EventsOf;
    if a.Rx? {
      PassTells(setup, r.c, a.r, r.clock + a.wait, tr);
      RxIsPass(setup, r, a);
    } else {
      OthersTell(setup, r, a, tr);
      assert tr + [] == tr;
    }
  }

  /** Over every run from a start, the receive statistics are exactly what the trace says: count, sum,
      minimum and jitter range over the undisturbed intervals, the maximum and the last interval over all,
      and the missed frames are the counter gaps plus the timeouts. */
  lemma {:induction false} StatisticsTellTheTrace(setup: Setup, start: Run, acts: seq<Act>)
    requires Ready(setup, start) && start.c.stats == FreshStats(start.clock) && start.c.lastRxCounter == None
    ensures Tells(setup, After(setup, start, acts).c, Trace(setup, start, acts))
  {
    hide Do, Tells, EventsOf;
    if acts == [] {
      assert Tells(setup, start.c, []) by {
        hide *;
        FreshTells(setup, start.c, start.clock);
      }
    } else {
      var before, a := acts[..|acts| - 1], acts[|acts| - 1];
      StatisticsTellTheTrace(setup, start, before);
      DoTells(setup, After(setup, start, before), a, Trace(setup, start, before));
    }
  }

  lemma FreshTells(setup: Setup, c: Shared, now: int)
    requires c.stats == FreshStats(now) && c.lastRxCounter == None
    ensures Tells(setup, c, [])
  {}

  // -------------------------------------------------------------------------
  // Conservation
  // -------------------------------------------------------------------------

  /** The counter a sender gives its frame number `i`. */
  function SenderCounter(base: u16, i: nat, step: nat): u16 {
    if i == 0 then base else (SenderCounter(base, i - 1, step) + step) % 0x1_0000
  }

  /** The counters of a sender whose frame number `indices[k]` is the k-th to arrive: none is overtaken,
      and no gap is wider than half the counter range. */
  predicate FromSender(counters: seq<u16>, indices: seq<nat>, base: u16, step: nat) {
    && |indices| == |counters|
    && (forall k :: 0 <= k < |counters| ==> counters[k] == SenderCounter(base, indices[k], step))
    && (forall k :: 0 < k < |indices| ==>
          indices[k - 1] <= indices[k] && (indices[k] - indices[k - 1]) * step <= 0x8000)
  }

  function Repeats(indices: seq<nat>): nat {
    if |indices| < 2 then 0
    else Repeats(indices[..|indices| - 1]) + if indices[|indices| - 1] == indices[|indices| - 2] then 1 else 0
  }

  /** Across every wrap of the 16-bit counter, frames received once plus frames counted missed make the
      sender's index span; duplicates are the true repeats and nothing is called late. */
  lemma {:induction false} CountersConserve(counters: seq<u16>, indices: seq<nat>, base: u16, step: nat)
    requires step > 0 && counters != [] && FromSender(counters, indices, base, step)
    ensures var t := TallyOf(counters, step);
            && t.repeats == Repeats(indices) && t.late == 0
            && |counters| + t.gapFrames + indices[0] == indices[|indices| - 1] + 1 + t.repeats
  {
    hide SenderCounter, OrderOf;
    var n := |counters|;
    if n > 1 {
      CountersConserve(counters[..n - 1], indices[..n - 1], base, step);
      StepIsRead(base, indices[n - 2], indices[n - 1], step);
    }
  }

  /** The counter difference of two frames gives back how many were sent between them. */
  lemma StepIsRead(base: u16, i: nat, j: nat, step: nat)
    requires i <= j && step > 0 && (j - i) * step <= 0x8000
    ensures OrderOf(SenderCounter(base, i, step), SenderCounter(base, j, step), step)
            == if j == i then Repeat else if j == i + 1 then Expected else Gap(j - i - 1)
  {
    hide SenderCounter;
    SenderAdvances(base, i, j - i, step);
    OrderOfDistance(SenderCounter(base, i, step), SenderCounter(base, j, step), j - i, step);
  }

  /** A counter `g` steps ahead is read as such. */
  lemma OrderOfDistance(prev: u16, rx: u16, g: nat, step: nat)
    requires step > 0 && g * step <= 0x8000 && rx == (prev + g * step) % 0x1_0000
    ensures OrderOf(prev, rx, step) == if g == 0 then Repeat else if g == 1 then Expected else Gap(g - 1)
  {
    hide Skipped;
    if g > 0 {
      var d := g * step;
      assert d == (g - 1) * step + step;
      Product(g - 1, step);
      assert (rx - prev) % 0x1_0000 == d by { hide *; Distance(prev, rx, d); }
      assert (prev + step) % 0x1_0000 == rx <==> d == step by { hide *; SameCounter(prev, d, step); }
      if g > 1 {
        assert d == (g - 2) * step + step + step;
        Product(g - 2, step);
        assert Skipped(d, step) == g - 1 by { Quotient(g, step); GapOf(g, step); }
      }
    }
  }

  lemma GapOf(g: nat, step: nat)
    requires step > 0 && g > 1 && g * step / step == g
    ensures Skipped(g * step, step) == g - 1
  {
    hide Skipped;
    SkippedIsGap(g * step, step);
  }

  lemma Distance(prev: u16, rx: u16, d: nat)
    requires d <= 0x8000 && rx == (prev + d) % 0x1_0000
    ensures (rx - prev) % 0x1_0000 == d
  {}

  lemma SameCounter(prev: u16, d: nat, e: nat)
    requires d <= 0x8000 && e <= 0x8000
    ensures (prev + e) % 0x1_0000 == (prev + d) % 0x1_0000 <==> d == e
  {}

  lemma {:induction false} AdvanceOnce(base: u16, i: nat, g: nat, step: nat)
    requires g > 0 && SenderCounter(base, i + (g - 1), step) == (SenderCounter(base, i, step) + (g - 1) * step) % 0x1_0000
    ensures SenderCounter(base, i + g, step) == (SenderCounter(base, i, step) + g * step) % 0x1_0000
  {
    hide *;
    assert i + (g - 1) + 1 == i + g;
    SenderStep(base, i + (g - 1), step);
    AddProduct(SenderCounter(base, i, step), g, step);
  }

  lemma {:induction false} SenderAdvances(base: u16, i: nat, g: nat, step: nat)
    ensures SenderCounter(base, i + g, step) == (SenderCounter(base, i, step) + g * step) % 0x1_0000
  {
    hide *;
    if g > 0 {
      SenderAdvances(base, i, g - 1, step);
      AdvanceOnce(base, i, g, step);
    }
  }

  lemma {:induction false} SenderStep(base: u16, i: nat, step: nat)
    ensures SenderCounter(base, i + 1, step) == (SenderCounter(base, i, step) + step) % 0x1_0000
  {}

  lemma AddProduct(a: nat, g: nat, step: nat)
    requires g > 0
    ensures ((a + (g - 1) * step) % 0x1_0000 + step) % 0x1_0000 == (a + g * step) % 0x1_0000
  {
    var x := (g - 1) * step;
    assert g * step == x + step;
    AddMod(a, x, step);
  }

  lemma AddMod(a: nat, x: int, y: int)
    ensures ((a + x) % 0x1_0000 + y) % 0x1_0000 == (a + (x + y)) % 0x1_0000
  {}

  lemma Product(a: nat, b: nat)
    ensures a * b >= 0
  {}

  lemma Quotient(g: nat, step: nat)
    requires step > 0
    ensures g * step / step == g
  {
    var q := g * step / step;
    assert 0 <= g * step - q * step < step;
    assert g * step - q * step == (g - q) * step;
    if g > q {
      AtLeastOnce(g - q, step);
    } else if g < q {
      assert (q - g) * step == -((g - q) * step);
      AtLeastOnce(q - g, step);
    }
  }

  lemma AtLeastOnce(a: nat, step: nat)
    requires a >= 1
    ensures a * step >= step
  {}

  /** The same of whole runs: what the statistics count as missed, less the timeouts, is exactly what
      the device sent and the controller did not see. */
  lemma FramesAreConserved(setup: Setup, start: Run, acts: seq<Act>, indices: seq<nat>, base: u16)
    requires Ready(setup, start) && start.c.stats == FreshStats(start.clock) && start.c.lastRxCounter == None
    requires indices != [] && setup.RxStep() > 0
    requires FromSender(Counters(Trace(setup, start, acts)), indices, base, setup.RxStep())
    ensures var st := After(setup, start, acts).c.stats;
            && st.framesOutOfOrder == 0 && st.framesDuplicate == Repeats(indices)
            && st.framesReceived + st.framesMissed + indices[0]
               == indices[|indices| - 1] + 1 + st.framesDuplicate + Timeouts(Trace(setup, start, acts))
  {
    hide After, Trace, TallyOf;
    StatisticsTellTheTrace(setup, start, acts);
    CountersConserve(Counters(Trace(setup, start, acts)), indices, base, setup.RxStep());
  }
}
