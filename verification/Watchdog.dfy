/** The receive watchdog over whole runs: how soon it must fault, and how late it may not have. */
module Watchdog {
  import opened Bytes
  import opened Wrappers
  import opened Rt
  import opened DataBuilder
  import opened Cyclic
  import opened CyclicRuns

  lemma NoFrame(setup: Setup, reception: Reception)
    requires reception.Nothing?
    ensures !Accepts(setup, reception)
  {}

  /** An accepted frame re-arms the timer and leaves Fault; another changes neither timer nor state. */
  lemma FrameAndTimer(setup: Setup, c: Shared, reception: Reception, now: int)
    requires NotBefore(c, now) && reception.Frame?
    ensures var c', st' := ProcessInputFrame(setup, c, reception.data, now), ProcessInputFrame(setup, c, reception.data, now).stats;
            && c'.everFaulted == c.everFaulted
            && if Accepts(setup, reception) then
                 && st'.lastReceiveTime == now && st'.lastAcceptedTime == Some(now) && st'.consecutiveTimeouts == 0
                 && c'.state == (if c.state == Fault then Running else c.state) && !TimesOut(setup, c', now)
               else
                 && st'.lastReceiveTime == c.stats.lastReceiveTime && st'.lastAcceptedTime == c.stats.lastAcceptedTime
                 && st'.consecutiveTimeouts == c.stats.consecutiveTimeouts && c'.state == c.state
                 && (TimesOut(setup, c', now) <==> TimesOut(setup, c, now))
  {
    hide Accepted, Disowned, FrameIsAlive, Relevant, AllIocsSet, Setup.Watchdog;
    assert setup.Watchdog() >= 0;
    if Relevant(setup, reception.data).Some? {
      AcceptedTouches(setup, c, Relevant(setup, reception.data).value, now);
      DisownedTouchesOnlyCounters(setup, c, Relevant(setup, reception.data).value);
    }
  }

  lemma CheckAndTimer(setup: Setup, c: Shared, now: int)
    ensures var c' := CheckReceiveWatchdog(setup, c, now);
            && !TimesOut(setup, c', now)
            && ((c.state == Fault ==> c.everFaulted) ==> (c'.state == Fault ==> c'.everFaulted))
            && c'.stats.lastAcceptedTime == c.stats.lastAcceptedTime
            && if TimesOut(setup, c, now) then
                 && c'.stats.lastReceiveTime == now && c'.stats.consecutiveTimeouts == c.stats.consecutiveTimeouts + 1
                 && c'.state == if c.state == Running && 0 < setup.maxTimeouts <= c'.stats.consecutiveTimeouts then Fault else c.state
               else c' == c
  {
    hide AllIocsSet, Setup.Watchdog;
    assert setup.Watchdog() >= 0;
  }

  /** What a receive pass does to the timer, the streak of timeouts and the state. */
  lemma PassAndTimer(setup: Setup, c: Shared, reception: Reception, now: int)
    requires NotBefore(c, now)
    ensures var c' := RxPass(setup, c, reception, now);
            && (c.state == Fault ==> c.everFaulted) ==> (c'.state == Fault ==> c'.everFaulted)
    ensures !TimesOut(setup, RxPass(setup, c, reception, now), now)
    ensures var c' := RxPass(setup, c, reception, now);
            match SignalOf(setup, c, reception, now)
            case Alive =>
              && c'.stats.lastReceiveTime == now && c'.stats.lastAcceptedTime == Some(now) && c'.stats.consecutiveTimeouts == 0
              && c'.state == if c.state == Fault then Running else c.state
            case TimedOut =>
              && c'.stats.lastReceiveTime == now && c'.stats.lastAcceptedTime == c.stats.lastAcceptedTime
              && c'.stats.consecutiveTimeouts == c.stats.consecutiveTimeouts + 1
              && c'.state == if c.state == Running && 0 < setup.maxTimeouts <= c'.stats.consecutiveTimeouts then Fault else c.state
            case Quiet =>
              && c'.stats.lastReceiveTime == c.stats.lastReceiveTime && c'.stats.lastAcceptedTime == c.stats.lastAcceptedTime
              && c'.stats.consecutiveTimeouts == c.stats.consecutiveTimeouts && c'.state == c.state
  {
    hide ProcessInputFrame, CheckReceiveWatchdog, TimesOut, Accepts;
    var c1 := if reception.Frame? then ProcessInputFrame(setup, c, reception.data, now) else c;
    if reception.Frame? {
      FrameAndTimer(setup, c, reception, now);
    } else {
      NoFrame(setup, reception);
    }
    CheckAndTimer(setup, c1, now);
  }

  // -------------------------------------------------------------------------
  // The upper bound
  // -------------------------------------------------------------------------

  /** Nothing the device owns up to is accepted, the socket works, and the passes are at most `d` apart. */
  predicate Silent(setup: Setup, acts: seq<Act>, d: nat) {
    forall k :: 0 <= k < |acts| ==> SilentAct(setup, acts[k], d)
  }

  predicate SilentAct(setup: Setup, a: Act, d: nat) {
    !a.RxFails? && (a.Rx? ==> a.wait <= d && !Accepts(setup, a.r))
  }

  /** When the watchdog must have faulted: each timeout still missing takes at most one period and one
      distance between passes. */
  function Deadline(setup: Setup, start: Shared, d: nat): int
    requires start.stats.consecutiveTimeouts <= setup.maxTimeouts
  {
    start.stats.lastReceiveTime + (setup.maxTimeouts - start.stats.consecutiveTimeouts) * (setup.Watchdog() + d)
  }

  /** In a silent run the streak measures the time since the last re-arm, and only the streak decides. */
  predicate Aging(setup: Setup, start: Shared, r: Run, d: nat)
    requires start.stats.consecutiveTimeouts <= setup.maxTimeouts
  {
    var k := r.c.stats.consecutiveTimeouts - start.stats.consecutiveTimeouts;
    && k >= 0
    && !TimesOut(setup, r.c, r.clock)
    && r.c.stats.lastReceiveTime <= start.stats.lastReceiveTime + k * (setup.Watchdog() + d)
    && r.c.state == if r.c.stats.consecutiveTimeouts < setup.maxTimeouts then Running else Fault
  }

  lemma DoKeepsAging(setup: Setup, start: Shared, r: Run, a: Act, d: nat)
    requires start.stats.consecutiveTimeouts < setup.maxTimeouts
    requires Ready(setup, r) && SilentAct(setup, a, d) && Aging(setup, start, r, d)
    ensures Aging(setup, start, Do(setup, r, a), d)
  {
    hide RxPass, Accepts, TxFrame, Setup.Watchdog, DataSet, IopsSet;
    if a.Rx? {
      PassAndTimer(setup, r.c, a.r, r.clock + a.wait);
      var k := r.c.stats.consecutiveTimeouts - start.stats.consecutiveTimeouts;
      assert (k + 1) * (setup.Watchdog() + d) == k * (setup.Watchdog() + d) + (setup.Watchdog() + d);
    } else if a.Tx? {
      TxKeepsTimer(setup, r.c);
    }
  }

  lemma TxKeepsTimer(setup: Setup, c: Shared)
    ensures var c' := TxFrame(setup, c).0;
            c' == c.(cycleCounter := c'.cycleCounter, buffers := c'.buffers, stats := c.stats.(framesSent := c.stats.framesSent + 1))
  {}

  lemma {:induction false} SilentRunAges(setup: Setup, start: Run, acts: seq<Act>, d: nat)
    requires Ready(setup, start) && Silent(setup, acts, d)
    requires start.c.state == Running && start.c.stats.consecutiveTimeouts < setup.maxTimeouts && !TimesOut(setup, start.c, start.clock)
    ensures Aging(setup, start.c, After(setup, start, acts), d)
  {
    hide Do, Aging, SilentAct;
    if acts == [] {
      assert Aging(setup, start.c, start, d) by {
        hide *;
        StartAges(setup, start, d);
      }
    } else {
      SilentRunAges(setup, start, acts[..|acts| - 1], d);
      DoKeepsAging(setup, start.c, After(setup, start, acts[..|acts| - 1]), acts[|acts| - 1], d);
    }
  }

  lemma StartAges(setup: Setup, start: Run, d: nat)
    requires start.c.state == Running && start.c.stats.consecutiveTimeouts < setup.maxTimeouts && !TimesOut(setup, start.c, start.clock)
    ensures Aging(setup, start.c, start, d)
  {}

  /** A running link that delivers no alive frame is in Fault by the deadline, whatever invalid or
      foreign frames arrive and whatever is transmitted meanwhile: some pass at or before the deadline
      faults, and every pass after the one before the deadline sees Fault. */
  lemma {:induction false} FaultByDeadline(setup: Setup, start: Run, acts: seq<Act>, d: nat)
    requires Ready(setup, start) && Silent(setup, acts, d)
    requires start.c.state == Running && start.c.stats.consecutiveTimeouts < setup.maxTimeouts && !TimesOut(setup, start.c, start.clock)
    requires After(setup, start, acts).clock > Deadline(setup, start.c, d) - d
    ensures After(setup, start, acts).c.state == Fault
    ensures exists j :: 0 <= j <= |acts| && FaultsBy(setup, start, acts[..j], Deadline(setup, start.c, d))
  {
    hide Do, After, Silent, SilentAct;
    SilentRunAges(setup, start, acts, d);
    AgedRunFaults(setup, start.c, After(setup, start, acts), d);
    var n := |acts|;
    assert acts[..n] == acts;
    if After(setup, start, acts).clock <= Deadline(setup, start.c, d) {
      assert FaultsBy(setup, start, acts[..n], Deadline(setup, start.c, d));
    } else {
      PassesAreClose(setup, start, acts, d);
      var before := acts[..n - 1];
      FaultByDeadline(setup, start, before, d);
      var j :| 0 <= j <= |before| && FaultsBy(setup, start, before[..j], Deadline(setup, start.c, d));
      assert before[..j] == acts[..j];
    }
  }

  predicate FaultsBy(setup: Setup, start: Run, acts: seq<Act>, deadline: int)
    requires Ready(setup, start)
  {
    After(setup, start, acts).c.state == Fault && After(setup, start, acts).clock <= deadline
  }

  lemma PassesAreClose(setup: Setup, start: Run, acts: seq<Act>, d: nat)
    requires Ready(setup, start) && Silent(setup, acts, d)
    requires start.c.stats.consecutiveTimeouts < setup.maxTimeouts && !TimesOut(setup, start.c, start.clock)
    requires After(setup, start, acts).clock > Deadline(setup, start.c, d)
    ensures acts != [] && Silent(setup, acts[..|acts| - 1], d)
    ensures After(setup, start, acts[..|acts| - 1]).clock > Deadline(setup, start.c, d) - d
  {
    hide After, Do, Silent, Setup.Watchdog, TimesOut, Deadline;
    if acts == [] {
      assert After(setup, start, acts) == start by { hide *; EmptyRun(setup, start); }
      DeadlineIsAhead(setup, start, d);
    } else {
      LastActIsClose(setup, start, acts, d);
    }
  }

  lemma EmptyRun(setup: Setup, start: Run)
    requires Ready(setup, start)
    ensures After(setup, start, []) == start
  {}

  lemma DeadlineIsAhead(setup: Setup, start: Run, d: nat)
    requires start.c.stats.consecutiveTimeouts < setup.maxTimeouts && !TimesOut(setup, start.c, start.clock)
    ensures start.clock <= Deadline(setup, start.c, d)
  {
    hide Setup.Watchdog;
    OneTimesAtMost(setup.maxTimeouts - start.c.stats.consecutiveTimeouts, setup.Watchdog() + d);
  }

  lemma LastActIsClose(setup: Setup, start: Run, acts: seq<Act>, d: nat)
    requires Ready(setup, start) && Silent(setup, acts, d) && acts != []
    ensures Silent(setup, acts[..|acts| - 1], d)
    ensures After(setup, start, acts).clock <= After(setup, start, acts[..|acts| - 1]).clock + d
  {
    hide Do, Accepts;
    var n := |acts|;
    assert SilentAct(setup, acts[n - 1], d);
    ActsTakeTime(setup, After(setup, start, acts[..n - 1]), acts[n - 1], d);
  }

  lemma ActsTakeTime(setup: Setup, r: Run, a: Act, d: nat)
    requires Ready(setup, r) && SilentAct(setup, a, d)
    ensures Do(setup, r, a).clock <= r.clock + d
  {
    hide RxPass, TxFrame, SetOutputData, Accepts;
  }

  lemma OneTimesAtMost(m: nat, w: nat)
    requires m > 0
    ensures m * w >= w
  {}

  lemma AgedRunFaults(setup: Setup, start: Shared, r: Run, d: nat)
    requires start.stats.consecutiveTimeouts < setup.maxTimeouts && Aging(setup, start, r, d)
    requires r.clock > Deadline(setup, start, d) - d
    ensures r.c.state == Fault
  {
    var m, w := setup.maxTimeouts - start.stats.consecutiveTimeouts, setup.Watchdog() + d;
    var k := r.c.stats.consecutiveTimeouts - start.stats.consecutiveTimeouts;
    if k < m {
      assert (k + 1) * w == k * w + w;
      FewerPeriods(k + 1, m, w);
    }
  }

  lemma FewerPeriods(k: nat, m: nat, w: nat)
    requires k <= m
    ensures k * w <= m * w
  {}

  // -------------------------------------------------------------------------
  // The lower bound
  // -------------------------------------------------------------------------

  /** When usable data last arrived; the start of the run if none has. */
  function LastAlive(started: int, st: Stats): int {
    if st.lastAcceptedTime.Some? then st.lastAcceptedTime.value else started
  }

  /** Every timeout of the streak has waited out a full period. */
  predicate Waited(setup: Setup, started: int, st: Stats) {
    st.lastReceiveTime - LastAlive(started, st) >= st.consecutiveTimeouts * (setup.Watchdog() + 1)
  }

  lemma PassKeepsWaited(setup: Setup, started: int, c: Shared, reception: Reception, now: int)
    requires NotBefore(c, now) && Waited(setup, started, c.stats)
    ensures Waited(setup, started, RxPass(setup, c, reception, now).stats)
  {
    hide RxPass, Accepts, Setup.Watchdog;
    PassAndTimer(setup, c, reception, now);
    var k := c.stats.consecutiveTimeouts;
    assert (k + 1) * (setup.Watchdog() + 1) == k * (setup.Watchdog() + 1) + (setup.Watchdog() + 1);
  }

  /** Over every run, the timer and the streak bound the time without data, and Fault is remembered. */
  lemma {:induction false} RunsWait(setup: Setup, start: Run, acts: seq<Act>, started: int)
    requires Ready(setup, start) && Waited(setup, started, start.c.stats) && (start.c.state == Fault ==> start.c.everFaulted)
    ensures var c := After(setup, start, acts).c; Waited(setup, started, c.stats) && (c.state == Fault ==> c.everFaulted)
  {
    hide RxPass, Accepts, TxFrame, Setup.Watchdog, DataSet, IopsSet, Waited;
    if acts != [] {
      var before, a := acts[..|acts| - 1], acts[|acts| - 1];
      RunsWait(setup, start, before, started);
      var r := After(setup, start, before);
      if a.Rx? {
        PassKeepsWaited(setup, started, r.c, a.r, r.clock + a.wait);
        PassAndTimer(setup, r.c, a.r, r.clock + a.wait);
      } else {
        assert Waited(setup, started, Do(setup, r, a).c.stats) by {
          hide *;
          OthersKeepWaited(setup, started, r, a);
        }
        if a.Tx? { TxKeepsTimer(setup, r.c); }
      }
    }
  }

  lemma OthersKeepWaited(setup: Setup, started: int, r: Run, a: Act)
    requires Ready(setup, r) && !a.Rx? && Waited(setup, started, r.c.stats)
    ensures Waited(setup, started, Do(setup, r, a).c.stats)
  {
    hide BuildEthernetFrame, Setup.Watchdog, RxPass;
  }

  /** The watchdog never faults early: when a pass of a run from a fresh start moves the link to Fault,
      more than N periods have gone by since the last accepted frame, and N is not zero. */
  lemma NoEarlyFault(setup: Setup, start: Run, acts: seq<Act>, reception: Reception, wait: nat)
    requires Ready(setup, start) && start.c.stats == FreshStats(start.clock) && start.c.state == Running
    requires var c := After(setup, start, acts).c; c.state != Fault
    requires After(setup, start, acts + [Rx(reception, wait)]).c.state == Fault
    ensures setup.maxTimeouts > 0
    ensures var c := After(setup, start, acts).c; var now := After(setup, start, acts).clock + wait;
            && now - LastAlive(start.clock, c.stats) >= setup.maxTimeouts * (setup.Watchdog() + 1) > setup.maxTimeouts * setup.Watchdog()
  {
    hide After, Do, RxPass, Setup.Watchdog;
    var r, a := After(setup, start, acts), Rx(reception, wait);
    OneMoreAct(setup, start, acts, a);
    RxIsPass(setup, r, a);
    RunsWait(setup, start, acts, start.clock);
    FaultingPassIsLate(setup, start.clock, r.c, reception, r.clock + wait);
  }

  lemma FaultingPassIsLate(setup: Setup, started: int, c: Shared, reception: Reception, now: int)
    requires NotBefore(c, now) && Waited(setup, started, c.stats) && c.state != Fault
    requires RxPass(setup, c, reception, now).state == Fault
    ensures setup.maxTimeouts > 0
    ensures now - LastAlive(started, c.stats) >= setup.maxTimeouts * (setup.Watchdog() + 1) > setup.maxTimeouts * setup.Watchdog()
  {
    hide RxPass, Accepts, Setup.Watchdog;
    var n := setup.maxTimeouts;
    PassKeepsWaited(setup, started, c, reception, now);
    PassAndTimer(setup, c, reception, now);
    FewerPeriods(n, RxPass(setup, c, reception, now).stats.consecutiveTimeouts, setup.Watchdog() + 1);
    assert n * (setup.Watchdog() + 1) == n * setup.Watchdog() + n;
  }

  /** With no limit on timeouts, no run of passes, transmissions and writes ever reaches Fault. */
  lemma {:induction false} UnlimitedNeverFaults(setup: Setup, start: Run, acts: seq<Act>)
    requires Ready(setup, start) && setup.maxTimeouts == 0 && start.c.state != Fault
    requires forall k :: 0 <= k < |acts| ==> !acts[k].RxFails?
    ensures After(setup, start, acts).c.state == start.c.state
  {
    hide RxPass, Accepts, TxFrame, DataSet, IopsSet;
    if acts != [] {
      var before, a := acts[..|acts| - 1], acts[|acts| - 1];
      UnlimitedNeverFaults(setup, start, before);
      var r := After(setup, start, before);
      if a.Rx? {
        PassAndTimer(setup, r.c, a.r, r.clock + a.wait);
      } else if a.Tx? {
        TxKeepsTimer(setup, r.c);
      }
    }
  }
}
