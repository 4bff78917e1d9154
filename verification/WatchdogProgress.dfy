/** How the controller's watchdog guard moves on: which time in a phase leads where, and
    that an acknowledged, prepared guard always gets ready. */
module WatchdogProgress {
  import opened Words
  import opened Startup

  function Period(e: GuardEvent): nat {
    match e case Tick(periodNs, _, _) => periodNs case Commit => 0
  }

  /** Time since the guard entered its present phase. */
  function Since(es: seq<GuardEvent>): nat {
    if es == [] then 0
    else
      var front := es[..|es| - 1];
      if RunWatchdog(es).phase != RunWatchdog(front).phase then 0 else Since(front) + Period(es[|es| - 1])
  }

  predicate Timed(w: Watchdog) {
    w.phase.ArmLow? || w.phase.WaitOk? || w.phase.Stable?
  }

  /** A guard in a timed phase has measured the time since it entered it. */
  lemma {:induction false} TimeIsMeasured(es: seq<GuardEvent>)
    ensures var w := RunWatchdog(es);
            Timed(w) ==> w.elapsedNs == (if Since(es) > U64_MAX then U64_MAX else Since(es))
  {
    if es != [] {
      var n := |es| - 1;
      TimeIsMeasured(es[..n]);
      TimedStep(RunWatchdog(es[..n]), es[n]);
    }
  }

  lemma TimedStep(w: Watchdog, e: GuardEvent)
    requires w.Valid()
    ensures var t := Guard(w, e);
            Timed(t) ==> t.elapsedNs == if t.phase != w.phase then 0 else SaturatingAdd(w.elapsedNs, Period(e))
  {
  }

  /** Where one update leads, by the phase, the time in it, and what is sampled. */
  function NextPhase(w: Watchdog, timeNs: nat, ok: bool, ready: bool): WatchdogPhase {
    match w.phase
    case WatchdogFault => WatchdogFault
    case WatchdogReady =>
      if !w.runtimeCommitted && !ready then WaitPrerequisites
      else if ok then WatchdogReady
      else if w.runtimeCommitted then WatchdogFault
      else ArmLow
    case WaitPrerequisites => if ready then ArmLow else WaitPrerequisites
    case ArmLow => if !ready then WaitPrerequisites else if timeNs >= 10_000_000 then WaitOk else ArmLow
    case WaitOk =>
      if !ready then WaitPrerequisites else if ok then Stable
      else if timeNs >= 150_000_000 then ArmLow else WaitOk
    case Stable =>
      if !ready then WaitPrerequisites else if !ok then ArmLow
      else if timeNs >= 250_000_000 then WatchdogReady else Stable
  }

  /** Over every run: the phase after an update is decided by the servo time spent in
      the phase before, and the watchdog is enabled from the wait for its
      acknowledgement on. */
  lemma PhasesExactly(es: seq<GuardEvent>, periodNs: u64, ok: bool, ready: bool)
    ensures var w, t := RunWatchdog(es), RunWatchdog(es + [Tick(periodNs, ok, ready)]);
            && t.phase == NextPhase(w, Since(es) + periodNs, ok, ready)
            && t.enable == (t.phase.WaitOk? || t.phase.Stable? || t.phase.WatchdogReady?)
  {
    TimeIsMeasured(es);
    assert (es + [Tick(periodNs, ok, ready)])[..|es|] == es;
    PhaseStep(RunWatchdog(es), Since(es), periodNs, ok, ready);
  }

  lemma PhaseStep(w: Watchdog, since: nat, periodNs: u64, ok: bool, ready: bool)
    requires w.Valid()
    requires Timed(w) ==> w.elapsedNs == if since > U64_MAX then U64_MAX else since
    ensures w.Update(periodNs, ok, ready).phase == NextPhase(w, since + periodNs, ok, ready)
  {
  }

  /** The guard counts how often it has enabled the watchdog. */
  function Enables(es: seq<GuardEvent>): nat {
    if es == [] then 0
    else
      var front := es[..|es| - 1];
      Enables(front) + if RunWatchdog(es).enable && !RunWatchdog(front).enable then 1 else 0
  }

  lemma EnableStep(w: Watchdog, e: GuardEvent)
    requires w.Valid()
    ensures var t := Guard(w, e);
            t.armAttempts == if t.enable && !w.enable then WrappingAdd(w.armAttempts, 1) else w.armAttempts
  {
  }

  lemma CountOn(count: nat)
    ensures WrappingAdd(count % 0x1_0000_0000, 1) == (count + 1) % 0x1_0000_0000
  {
  }

  lemma {:induction false} AttemptsAreCounted(es: seq<GuardEvent>)
    ensures RunWatchdog(es).armAttempts == Enables(es) % 0x1_0000_0000
  {
    if es != [] {
      var n := |es| - 1;
      AttemptsAreCounted(es[..n]);
      EnableStep(RunWatchdog(es[..n]), es[n]);
      CountOn(Enables(es[..n]));
      hide WrappingAdd, Guard;
    }
  }

  // ------------------------------------------------------------------- progress

  /** From event `i` on every update finds the prerequisites, and the watchdog
      acknowledges whenever it is enabled; no period is longer than `p`. */
  predicate Cooperates(es: seq<GuardEvent>, i: nat, p: u64) {
    forall k | i <= k < |es| && es[k].Tick? ::
      && es[k].prerequisitesReady && es[k].periodNs <= p
      && (RunWatchdog(es[..k]).enable ==> es[k].watchdogOk)
  }

  /** How far along the guard is, in time that counts. */
  function Reached(w: Watchdog): nat {
    match w.phase
    case ArmLow => w.elapsedNs
    case WaitOk => 10_000_000
    case Stable => 10_000_000 + w.elapsedNs
    case _ => 0
  }

  /** The phases it has left behind; each may cost a period. */
  function Left(w: Watchdog): nat {
    match w.phase case ArmLow => 1 case WaitOk => 2 case Stable => 3 case _ => 0
  }

  lemma ProgressStep(w: Watchdog, e: GuardEvent, p: u64)
    requires w.Valid() && !w.faulted && e.Tick? && e.prerequisitesReady && e.periodNs <= p
    requires w.enable ==> e.watchdogOk
    requires w.phase.ArmLow? ==> w.elapsedNs < 10_000_000
    requires w.phase.Stable? ==> w.elapsedNs < 250_000_000
    ensures var t := Guard(w, e);
            && !t.faulted
            && (t.phase.WatchdogReady? ||
                (!w.phase.WatchdogReady? && Reached(w) + Left(w) * p + e.periodNs <= Reached(t) + Left(t) * p))
  {
  }

  lemma {:induction false} TimesAreBounded(es: seq<GuardEvent>)
    ensures var w := RunWatchdog(es);
            && (w.phase.ArmLow? ==> w.elapsedNs < 10_000_000)
            && (w.phase.Stable? ==> w.elapsedNs < 250_000_000)
  {
    if es != [] {
      TimesAreBounded(es[..|es| - 1]);
    }
  }

  lemma {:induction false} Progress(es: seq<GuardEvent>, i: nat, p: u64)
    requires i <= |es| && Cooperates(es, i, p) && !RunWatchdog(es[..i]).faulted
    ensures var w := RunWatchdog(es);
            !w.faulted && (w.phase.WatchdogReady? || GuardTime(es[i..]) <= Reached(w) + Left(w) * p)
  {
    if i == |es| {
      assert es[..i] == es && es[i..] == [];
    } else {
      var n := |es| - 1;
      var w := RunWatchdog(es[..n]);
      CooperatedBefore(es, i, p);
      Progress(es[..n], i, p);
      TimesAreBounded(es[..n]);
      GuardTimeStep(es, i);
      assert RunWatchdog(es) == Guard(w, es[n]);
      if es[n].Tick? {
        ProgressStep(w, es[n], p);
      } else {
        CommitStep(w);
      }
      hide Guard, Reached, Left, GuardTime, Cooperates;
    }
  }

  lemma CommitStep(w: Watchdog)
    ensures var t := Guard(w, Commit);
            t.faulted == w.faulted && t.phase == w.phase && Reached(t) == Reached(w) && Left(t) == Left(w)
  {
  }

  lemma CooperatedBefore(es: seq<GuardEvent>, i: nat, p: u64)
    requires i < |es| && Cooperates(es, i, p)
    ensures var n := |es| - 1;
            && Cooperates(es[..n], i, p) && es[..n][..i] == es[..i]
            && (es[n].Tick? ==> es[n].prerequisitesReady && es[n].periodNs <= p
                                && (RunWatchdog(es[..n]).enable ==> es[n].watchdogOk))
  {
    var n := |es| - 1;
    forall k | i <= k < n && es[..n][k].Tick?
      ensures es[..n][k].prerequisitesReady && es[..n][k].periodNs <= p
      ensures RunWatchdog(es[..n][..k]).enable ==> es[..n][k].watchdogOk
    {
      assert es[..n][..k] == es[..k];
    }
  }

  /** A guard that has not faulted gets ready, at the latest when 260 ms and three
      periods of cooperation have passed, whatever came before. */
  lemma CooperationMakesReady(es: seq<GuardEvent>, i: nat, p: u64)
    requires i <= |es| && Cooperates(es, i, p) && !RunWatchdog(es[..i]).faulted
    requires GuardTime(es[i..]) >= 260_000_000 + 3 * p
    ensures RunWatchdog(es).Ready()
  {
    Progress(es, i, p);
    TimesAreBounded(es);
    ShortOfReady(RunWatchdog(es), p);
    hide RunWatchdog, Reached, Left;
  }

  lemma ShortOfReady(w: Watchdog, p: u64)
    requires w.phase.ArmLow? ==> w.elapsedNs < 10_000_000
    requires w.phase.Stable? ==> w.elapsedNs < 250_000_000
    ensures Reached(w) + Left(w) * p < 260_000_000 + 3 * p
  {
    var left := Left(w);
    assert left == 0 || left == 1 || left == 2 || left == 3;
  }
}
