/** The timed startup guards and the heartbeat: what the state they are in says
    about the updates that led there. */
module Startup {
  import opened Words

  const HEARTBEAT_TOGGLE_NS := 20_000_000
  const CONTROLLER_WATCHDOG_ARM_LOW_NS := 10_000_000
  const CONTROLLER_WATCHDOG_OK_WAIT_NS := 150_000_000
  const CONTROLLER_WATCHDOG_STABLE_NS := 250_000_000
  const MESA_WATCHDOG_STABLE_NS := 100_000_000
  const LIMIT_RESET_NS := 10_000_000
  const LIMIT_SETTLE_NS := 10_000_000

  // ---------------------------------------------------------------- heartbeat

  datatype Heartbeat = Heartbeat(value: bool, elapsedNs: u64) {
    function Update(periodNs: u64): Heartbeat {
      var elapsed := SaturatingAdd(elapsedNs, periodNs);
      if elapsed >= HEARTBEAT_TOGGLE_NS then Heartbeat(!value, 0) else Heartbeat(value, elapsed)
    }
  }

  class HeartbeatGenerator {
    var value: bool
    var elapsedNs: u64

    ghost function Abs(): Heartbeat
      reads this
    {
      Heartbeat(value, elapsedNs)
    }

    constructor ()
      ensures Abs() == Heartbeat(false, 0)
    {
      value, elapsedNs := false, 0;
    }

    method Update(periodNs: u64) returns (v: bool)
      modifies this
      ensures Abs() == old(Abs()).Update(periodNs) && v == value
    {
      elapsedNs := SaturatingAdd(elapsedNs, periodNs);
      if elapsedNs >= HEARTBEAT_TOGGLE_NS {
        value := !value;
        elapsedNs := 0;
      }
      v := value;
    }
  }

  function Beat(h: Heartbeat, periods: seq<u64>): Heartbeat {
    if periods == [] then h
    else Beat(h, periods[..|periods| - 1]).Update(periods[|periods| - 1])
  }

  function Sum(periods: seq<u64>): nat {
    if periods == [] then 0 else Sum(periods[..|periods| - 1]) + periods[|periods| - 1]
  }

  predicate TogglesAt(h: Heartbeat, periods: seq<u64>, k: nat)
    requires k < |periods|
  {
    Beat(h, periods[..k + 1]).value != Beat(h, periods[..k]).value
  }

  lemma BeatStep(h: Heartbeat, periods: seq<u64>, k: nat)
    requires k < |periods|
    ensures Beat(h, periods[..k + 1]) == Beat(h, periods[..k]).Update(periods[k])
  {
    assert periods[..k + 1][..k] == periods[..k];
  }

  lemma SumStep(periods: seq<u64>, i: nat, k: nat)
    requires i <= k < |periods|
    ensures Sum(periods[i..k + 1]) == Sum(periods[i..k]) + periods[k]
  {
    assert periods[i..k + 1][..k - i] == periods[i..k];
  }

  lemma {:induction false} ElapsedSinceToggle(h: Heartbeat, periods: seq<u64>, i: nat, k: nat)
    requires i < k <= |periods| && TogglesAt(h, periods, i)
    requires forall t | i < t < k :: !TogglesAt(h, periods, t)
    ensures Beat(h, periods[..k]).elapsedNs == Sum(periods[i + 1..k]) < HEARTBEAT_TOGGLE_NS
  {
    if k == i + 1 {
      BeatStep(h, periods, i);
      UpdateToggles(Beat(h, periods[..i]), periods[i]);
      hide Heartbeat.Update, Beat;
      assert periods[i + 1..k] == [];
    } else {
      var n := k - 1;
      assert !TogglesAt(h, periods, n);
      BeatStep(h, periods, n);
      UpdateToggles(Beat(h, periods[..n]), periods[n]);
      hide Heartbeat.Update, Beat, TogglesAt, Sum;
      ElapsedSinceToggle(h, periods, i, n);
      SumStep(periods, i + 1, n);
    }
  }

  lemma UpdateToggles(h: Heartbeat, periodNs: u64)
    ensures var g := h.Update(periodNs);
            if g.value != h.value then g.elapsedNs == 0
            else g.elapsedNs == h.elapsedNs + periodNs < HEARTBEAT_TOGGLE_NS
  {
  }

  /** Two successive heartbeat edges are at least 20 ms of servo time apart, and
      less than one period further: a late cycle is never made up for. */
  lemma HeartbeatSpacing(h: Heartbeat, periods: seq<u64>, i: nat, j: nat, p: u64)
    requires i < j < |periods| && TogglesAt(h, periods, i) && TogglesAt(h, periods, j)
    requires forall t | i < t < j :: !TogglesAt(h, periods, t)
    requires p > 0 && forall t | 0 <= t < |periods| :: periods[t] <= p
    ensures HEARTBEAT_TOGGLE_NS <= Sum(periods[i + 1..j + 1]) < HEARTBEAT_TOGGLE_NS + p
  {
    ElapsedSinceToggle(h, periods, i, j);
    BeatStep(h, periods, j);
    SumStep(periods, i + 1, j);
  }

  // ------------------------------------------------------------ Mesa startup

  datatype MesaPhase = WaitServo | WatchdogStable | LimitReset | LimitSettle | MesaReady | MesaFault

  datatype MesaInput = MesaInput(periodNs: u64, servoThreadReady: bool, watchdogHasBit: bool, ioError: bool)

  datatype Mesa = Mesa(
    phase: MesaPhase,
    elapsedNs: u64,
    watchdogClearRequested: bool,
    limitReset: bool,
    faulted: bool)
  {
    predicate Ready() {
      phase.MesaReady? && !faulted
    }

    function Fail(): Mesa {
      Mesa(MesaFault, 0, false, false, true)
    }

    // What one uneventful update adds: time in the phase, and at most one step.
    function Elapse(periodNs: u64): Mesa {
      var start := if phase.WaitServo? then 0 else elapsedNs;
      var elapsed := SaturatingAdd(start, periodNs);
      match phase
      case LimitReset =>
        if elapsed >= LIMIT_RESET_NS then Mesa(LimitSettle, 0, false, false, faulted)
        else Mesa(LimitReset, elapsed, false, limitReset, faulted)
      case LimitSettle =>
        if elapsed >= LIMIT_SETTLE_NS then Mesa(MesaReady, 0, false, limitReset, faulted)
        else Mesa(LimitSettle, elapsed, false, limitReset, faulted)
      case _ =>
        if elapsed >= MESA_WATCHDOG_STABLE_NS then Mesa(LimitReset, 0, false, true, faulted)
        else Mesa(WatchdogStable, elapsed, false, limitReset, faulted)
    }

    function Update(u: MesaInput): Mesa {
      if faulted then this.(watchdogClearRequested := false)
      else if u.ioError || (Ready() && u.watchdogHasBit) then Fail()
      else if Ready() || (phase.WaitServo? && !u.servoThreadReady) then this.(watchdogClearRequested := false)
      else if u.watchdogHasBit then Mesa(WatchdogStable, 0, true, false, false)
      else Elapse(u.periodNs)
    }

    function LimitResets(): seq<bool> {
      if limitReset then [true, true, true] else [false, false, false]
    }

    /** Limit resets are high exactly in the reset phase; a fault is a phase. */
    predicate Valid() {
      (limitReset <==> phase.LimitReset?) && (faulted <==> phase.MesaFault?)
    }
  }

  const NEW_MESA := Mesa(WaitServo, 0, false, false, false)

  class MesaStartupGuard {
    var phase: MesaPhase
    var phaseElapsedNs: u64
    var watchdogClearRequested: bool
    var limitReset: seq<bool>
    var faulted: bool

    ghost function Abs(): Mesa
      reads this
    {
      Mesa(phase, phaseElapsedNs, watchdogClearRequested, limitReset == [true, true, true], faulted)
    }

    ghost predicate Valid()
      reads this
    {
      Abs().Valid() && (limitReset == [true, true, true] || limitReset == [false, false, false])
    }

    constructor ()
      ensures Valid() && Abs() == NEW_MESA
    {
      phase, phaseElapsedNs, watchdogClearRequested := WaitServo, 0, false;
      limitReset, faulted := [false, false, false], false;
    }

    /** Overwrites the guard with a new one, as a fault clear does. */
    method Renew()
      modifies this
      ensures Valid() && Abs() == NEW_MESA
    {
      phase, phaseElapsedNs, watchdogClearRequested := WaitServo, 0, false;
      limitReset, faulted := [false, false, false], false;
    }

    method Transition(next: MesaPhase)
      modifies this
      ensures phase == next && phaseElapsedNs == 0
      ensures unchanged(`watchdogClearRequested) && unchanged(`limitReset) && unchanged(`faulted)
    {
      phase := next;
      phaseElapsedNs := 0;
    }

    method Fail()
      modifies this
      ensures Valid() && Abs() == old(Abs()).Fail()
    {
      Transition(MesaFault);
      watchdogClearRequested := false;
      limitReset := [false, false, false];
      faulted := true;
    }

    method Update(u: MesaInput)
      requires Valid()
      modifies this
      ensures Valid() && Abs() == old(Abs()).Update(u)
    {
      watchdogClearRequested := false;
      if faulted {
        return;
      }
      if u.ioError {
        Fail();
        return;
      }
      if phase.MesaReady? {
        if u.watchdogHasBit {
          Fail();
        }
        return;
      }
      if phase.WaitServo? {
        if !u.servoThreadReady {
          return;
        }
        Transition(WatchdogStable);
      }
      if u.watchdogHasBit {
        Transition(WatchdogStable);
        limitReset := [false, false, false];
        watchdogClearRequested := true;
        return;
      }
      phaseElapsedNs := SaturatingAdd(phaseElapsedNs, u.periodNs);
      if phase.WatchdogStable? && phaseElapsedNs >= MESA_WATCHDOG_STABLE_NS {
        Transition(LimitReset);
        limitReset := [true, true, true];
      } else if phase.LimitReset? && phaseElapsedNs >= LIMIT_RESET_NS {
        limitReset := [false, false, false];
        Transition(LimitSettle);
      } else if phase.LimitSettle? && phaseElapsedNs >= LIMIT_SETTLE_NS {
        Transition(MesaReady);
      }
    }
  }

  function RunMesa(us: seq<MesaInput>): (m: Mesa)
    ensures m.Valid()
  {
    if us == [] then NEW_MESA else RunMesa(us[..|us| - 1]).Update(us[|us| - 1])
  }

  function MesaTime(us: seq<MesaInput>): nat {
    if us == [] then 0 else MesaTime(us[..|us| - 1]) + us[|us| - 1].periodNs
  }

  /** No watchdog bit and no I/O error was sampled. */
  predicate Quiet(us: seq<MesaInput>) {
    forall k | 0 <= k < |us| :: !us[k].watchdogHasBit && !us[k].ioError
  }

  // Time already earned towards Ready in a phase.
  function Earned(m: Mesa): nat {
    match m.phase
    case WatchdogStable => m.elapsedNs
    case LimitReset => MESA_WATCHDOG_STABLE_NS + m.elapsedNs
    case LimitSettle => MESA_WATCHDOG_STABLE_NS + LIMIT_RESET_NS + m.elapsedNs
    case MesaReady => MESA_WATCHDOG_STABLE_NS + LIMIT_RESET_NS + LIMIT_SETTLE_NS
    case _ => 0
  }

  lemma QuietSnoc(us: seq<MesaInput>, i: nat)
    requires us != [] && i < |us|
    ensures MesaTime(us[i..]) == MesaTime(us[..|us| - 1][i..]) + us[|us| - 1].periodNs
    ensures Quiet(us[i..]) <==>
            Quiet(us[..|us| - 1][i..]) && !us[|us| - 1].watchdogHasBit && !us[|us| - 1].ioError
  {
    var n := |us| - 1;
    assert us[i..] == us[..n][i..] + [us[n]];
  }

  lemma EarnedStep(m: Mesa, u: MesaInput)
    requires m.Valid() && !u.watchdogHasBit && !u.ioError
    ensures Earned(m.Update(u)) <= Earned(m) + u.periodNs
  {
  }

  lemma {:induction false} EarnedByQuiet(us: seq<MesaInput>) returns (i: nat)
    ensures i <= |us| && Quiet(us[i..]) && Earned(RunMesa(us)) <= MesaTime(us[i..])
  {
    if us == [] {
      return 0;
    }
    var n := |us| - 1;
    i := EarnedByQuiet(us[..n]);
    if us[n].ioError || us[n].watchdogHasBit {
      i := |us|;
    } else {
      QuietSnoc(us, i);
      EarnedStep(RunMesa(us[..n]), us[n]);
    }
  }

  /** While the guard is ready, at least the last 120 ms of servo time were free
      of watchdog bits and I/O errors. */
  lemma MesaReadyMeansQuiet(us: seq<MesaInput>)
    requires RunMesa(us).Ready()
    ensures exists i: nat :: i <= |us| && Quiet(us[i..]) && MesaTime(us[i..]) >= 120_000_000
  {
    var i := EarnedByQuiet(us);
  }

  function PhasesPassed(m: Mesa): nat {
    match m.phase case LimitReset => 1 case LimitSettle => 2 case _ => 0
  }

  /** Crossing a phase boundary forfeits less than one period. */
  lemma BoundaryStep(m: Mesa, u: MesaInput, p: u64)
    requires m.Valid() && !m.faulted && !u.watchdogHasBit && !u.ioError
    requires u.servoThreadReady && u.periodNs <= p
    ensures var t := m.Update(u);
            && !t.faulted
            && (t.Ready() || Earned(m) + PhasesPassed(m) * p + u.periodNs <= Earned(t) + PhasesPassed(t) * p)
    requires !m.Ready() && m.elapsedNs < MESA_WATCHDOG_STABLE_NS
    requires m.phase.WaitServo? ==> m.elapsedNs == 0
    requires m.phase.LimitReset? ==> m.elapsedNs < LIMIT_RESET_NS
  {
  }

  predicate ServedAtMost(us: seq<MesaInput>, i: nat, p: u64) {
    forall k | i <= k < |us| :: us[k].servoThreadReady && us[k].periodNs <= p
  }

  lemma {:induction false} QuietEarns(us: seq<MesaInput>, i: nat, p: u64)
    requires i <= |us| && Quiet(us[i..]) && !RunMesa(us[..i]).faulted
    requires ServedAtMost(us, i, p)
    ensures var m := RunMesa(us);
            !m.faulted && (m.Ready() || MesaTime(us[i..]) <= Earned(m) + PhasesPassed(m) * p)
  {
    if i == |us| {
      assert us[..i] == us;
    } else {
      var n := |us| - 1;
      assert us[..n][..i] == us[..i];
      QuietSnoc(us, i);
      assert RunMesa(us) == RunMesa(us[..n]).Update(us[n]);
      QuietEarns(us[..n], i, p);
      ElapsedIsBounded(us[..n]);
      hide Earned, PhasesPassed, Quiet, MesaTime;
      if !RunMesa(us[..n]).Ready() {
        BoundaryStep(RunMesa(us[..n]), us[n], p);
      }
    }
  }

  /** Conversely, 120 ms of quiet updates plus two periods always suffice. */
  lemma QuietMakesMesaReady(us: seq<MesaInput>, i: nat, p: u64)
    requires i <= |us| && Quiet(us[i..]) && !RunMesa(us[..i]).faulted
    requires ServedAtMost(us, i, p)
    requires MesaTime(us[i..]) >= 120_000_000 + 2 * p
    ensures RunMesa(us).Ready()
  {
    QuietEarns(us, i, p);
    ElapsedIsBounded(us);
    if !RunMesa(us).Ready() { ShortOfReady(RunMesa(us), p); }
  }

  lemma ShortOfReady(m: Mesa, p: u64)
    requires m.Valid() && !m.faulted && !m.Ready() && m.elapsedNs < MESA_WATCHDOG_STABLE_NS
    requires m.phase.LimitReset? ==> m.elapsedNs < LIMIT_RESET_NS
    requires m.phase.LimitSettle? ==> m.elapsedNs < LIMIT_SETTLE_NS
    ensures Earned(m) + PhasesPassed(m) * p < 120_000_000 + 2 * p
  {
  }

  lemma {:induction false} ElapsedIsBounded(us: seq<MesaInput>)
    ensures var m := RunMesa(us);
            && m.elapsedNs < MESA_WATCHDOG_STABLE_NS
            && (m.phase.WaitServo? ==> m.elapsedNs == 0)
            && (m.phase.LimitReset? ==> m.elapsedNs < LIMIT_RESET_NS)
            && (m.phase.LimitSettle? ==> m.elapsedNs < LIMIT_SETTLE_NS)
  {
    if us != [] { ElapsedIsBounded(us[..|us| - 1]); }
  }

  /** A clear of the I/O watchdog is asked for in exactly those updates that see its bit
      in a startup that has begun, and the guard then starts to count anew. */
  lemma ClearIsAskedExactly(us: seq<MesaInput>)
    requires us != []
    ensures var m, u := RunMesa(us[..|us| - 1]), us[|us| - 1];
            var asks := u.watchdogHasBit && !u.ioError && !m.phase.MesaFault? && !m.phase.MesaReady?
                        && (m.phase.WaitServo? ==> u.servoThreadReady);
            && RunMesa(us).watchdogClearRequested == asks
            && (asks ==> RunMesa(us) == Mesa(WatchdogStable, 0, true, false, false))
  {
  }

  // ------------------------------------------------------ controller watchdog

  datatype WatchdogPhase = WaitPrerequisites | ArmLow | WaitOk | Stable | WatchdogReady | WatchdogFault

  datatype Watchdog = Watchdog(
    phase: WatchdogPhase,
    elapsedNs: u64,
    enable: bool,
    runtimeCommitted: bool,
    faulted: bool,
    armAttempts: u32)
  {
    predicate Ready() {
      phase.WatchdogReady? && !faulted
    }

    function Enter(next: WatchdogPhase, enabled: bool): Watchdog {
      this.(phase := next, elapsedNs := 0, enable := enabled)
    }

    function Update(periodNs: u64, watchdogOk: bool, prerequisitesReady: bool): Watchdog {
      if faulted then this
      else if Ready() then
        if !runtimeCommitted && !prerequisitesReady then Enter(WaitPrerequisites, false)
        else if watchdogOk then this
        else if runtimeCommitted then Enter(WatchdogFault, false).(faulted := true)
        else Enter(ArmLow, false)
      else if !prerequisitesReady then
        if phase.WaitPrerequisites? then this else Enter(WaitPrerequisites, false)
      else
        var elapsed := SaturatingAdd(elapsedNs, periodNs);
        match phase
        case WaitPrerequisites => Enter(ArmLow, false)
        case ArmLow =>
          if elapsed >= CONTROLLER_WATCHDOG_ARM_LOW_NS
          then Enter(WaitOk, true).(armAttempts := WrappingAdd(armAttempts, 1))
          else this.(elapsedNs := elapsed)
        case WaitOk =>
          if watchdogOk then Enter(Stable, enable)
          else if elapsed >= CONTROLLER_WATCHDOG_OK_WAIT_NS then Enter(ArmLow, false)
          else this.(elapsedNs := elapsed)
        case Stable =>
          if !watchdogOk then Enter(ArmLow, false)
          else if elapsed >= CONTROLLER_WATCHDOG_STABLE_NS then Enter(WatchdogReady, enable)
          else this.(elapsedNs := elapsed)
        case _ => this.(elapsedNs := elapsed)
    }

    function CommitRuntime(): Watchdog {
      if Ready() then this.(runtimeCommitted := true) else this
    }

    /** The watchdog is enabled exactly from the wait for its acknowledgement on;
        a committed runtime is ready or faulted. */
    predicate Valid() {
      && (enable <==> phase.WaitOk? || phase.Stable? || phase.WatchdogReady?)
      && (runtimeCommitted ==> phase.WatchdogReady? || phase.WatchdogFault?)
      && (faulted <==> phase.WatchdogFault?)
    }
  }

  const NEW_WATCHDOG := Watchdog(WaitPrerequisites, 0, false, false, false, 0)

  class ControllerWatchdogGuard {
    var phase: WatchdogPhase
    var phaseElapsedNs: u64
    var enable: bool
    var runtimeCommitted: bool
    var faulted: bool
    var armAttempts: u32

    ghost function Abs(): Watchdog
      reads this
    {
      Watchdog(phase, phaseElapsedNs, enable, runtimeCommitted, faulted, armAttempts)
    }

    ghost predicate Valid()
      reads this
    {
      Abs().Valid()
    }

    constructor ()
      ensures Valid() && Abs() == NEW_WATCHDOG
    {
      phase, phaseElapsedNs, enable := WaitPrerequisites, 0, false;
      runtimeCommitted, faulted, armAttempts := false, false, 0;
    }

    method Renew()
      modifies this
      ensures Valid() && Abs() == NEW_WATCHDOG
    {
      phase, phaseElapsedNs, enable := WaitPrerequisites, 0, false;
      runtimeCommitted, faulted, armAttempts := false, false, 0;
    }

    method CommitRuntime() returns (ok: bool)
      requires Valid()
      modifies this
      ensures Valid() && Abs() == old(Abs()).CommitRuntime() && ok == old(Abs()).Ready()
    {
      if !(phase.WatchdogReady? && !faulted) {
        return false;
      }
      runtimeCommitted := true;
      return true;
    }

    method Transition(next: WatchdogPhase)
      modifies this
      ensures Abs() == old(Abs()).Enter(next, old(enable))
    {
      phase := next;
      phaseElapsedNs := 0;
    }

    method BeginLow()
      modifies this
      ensures Abs() == old(Abs()).Enter(ArmLow, false)
    {
      Transition(ArmLow);
      enable := false;
    }

    method WaitForPrerequisites()
      modifies this
      ensures Abs() == old(Abs()).Enter(WaitPrerequisites, false)
    {
      Transition(WaitPrerequisites);
      enable := false;
    }

    method Update(periodNs: u64, watchdogOk: bool, prerequisitesReady: bool)
      requires Valid()
      modifies this
      ensures Valid() && Abs() == old(Abs()).Update(periodNs, watchdogOk, prerequisitesReady)
    {
      if faulted {
        return;
      }
      if phase.WatchdogReady? {
        if !runtimeCommitted && !prerequisitesReady {
          WaitForPrerequisites();
        } else if !watchdogOk {
          if runtimeCommitted {
            Transition(WatchdogFault);
            enable := false;
            faulted := true;
          } else {
            BeginLow();
          }
        }
        return;
      }
      if !prerequisitesReady {
        if !phase.WaitPrerequisites? {
          WaitForPrerequisites();
        }
        return;
      }
      phaseElapsedNs := SaturatingAdd(phaseElapsedNs, periodNs);
      if phase.WaitPrerequisites? {
        BeginLow();
      } else if phase.ArmLow? && phaseElapsedNs >= CONTROLLER_WATCHDOG_ARM_LOW_NS {
        enable := true;
        armAttempts := WrappingAdd(armAttempts, 1);
        Transition(WaitOk);
      } else if phase.WaitOk? && watchdogOk {
        Transition(Stable);
      } else if phase.WaitOk? && phaseElapsedNs >= CONTROLLER_WATCHDOG_OK_WAIT_NS {
        BeginLow();
      } else if phase.Stable? && !watchdogOk {
        BeginLow();
      } else if phase.Stable? && phaseElapsedNs >= CONTROLLER_WATCHDOG_STABLE_NS {
        Transition(WatchdogReady);
      }
    }
  }

  datatype GuardEvent =
    | Tick(periodNs: u64, watchdogOk: bool, prerequisitesReady: bool)
    | Commit

  function Guard(w: Watchdog, e: GuardEvent): Watchdog {
    match e
    case Tick(periodNs, watchdogOk, prerequisitesReady) => w.Update(periodNs, watchdogOk, prerequisitesReady)
    case Commit => w.CommitRuntime()
  }

  function RunWatchdog(es: seq<GuardEvent>): (w: Watchdog)
    ensures w.Valid()
  {
    if es == [] then NEW_WATCHDOG else Guard(RunWatchdog(es[..|es| - 1]), es[|es| - 1])
  }

  function GuardTime(es: seq<GuardEvent>): nat {
    if es == [] then 0
    else GuardTime(es[..|es| - 1]) + match es[|es| - 1] case Tick(p, _, _) => p case Commit => 0
  }

  predicate Prepared(es: seq<GuardEvent>) {
    forall k | 0 <= k < |es| && es[k].Tick? :: es[k].prerequisitesReady
  }

  predicate AllAcknowledged(es: seq<GuardEvent>) {
    forall k | 0 <= k < |es| && es[k].Tick? :: es[k].watchdogOk
  }

  /** From event `i` up to the end the watchdog was held disabled, with every
      prerequisite sampled true. */
  predicate HeldLow(es: seq<GuardEvent>, i: nat) {
    i < |es| && Prepared(es[i..]) && forall k | i < k <= |es| :: LowAfter(es, k)
  }

  predicate LowAfter(es: seq<GuardEvent>, k: nat)
    requires k <= |es|
  {
    RunWatchdog(es[..k]).phase.ArmLow? && !RunWatchdog(es[..k]).enable
  }

  /** The watchdog was held low from `i` for at least 10 ms, then enabled at
      event `j`; prerequisites held ever since `i`. */
  predicate Armed(es: seq<GuardEvent>, i: nat, j: nat) {
    && i < j < |es| && Prepared(es[i..])
    && HeldLow(es[..j], i)
    && GuardTime(es[i + 1..j + 1]) >= CONTROLLER_WATCHDOG_ARM_LOW_NS
    && RunWatchdog(es[..j + 1]).phase.WaitOk?
  }

  /** Armed as above, then acknowledged in every update from `k` on. */
  predicate EarnedFrom(es: seq<GuardEvent>, i: nat, j: nat, k: nat) {
    Armed(es, i, j) && j < k < |es| && AllAcknowledged(es[k..])
  }

  lemma GuardTimeStep(es: seq<GuardEvent>, i: nat)
    requires es != [] && i < |es|
    ensures GuardTime(es[i..]) ==
            GuardTime(es[..|es| - 1][i..]) + match es[|es| - 1] case Tick(p, _, _) => p case Commit => 0
  {
    assert es[i..][..|es| - 1 - i] == es[..|es| - 1][i..];
  }

  lemma PrefixFacts(es: seq<GuardEvent>, i: nat)
    requires es != [] && i < |es|
    ensures Prepared(es[i..]) <==>
            Prepared(es[..|es| - 1][i..]) && (es[|es| - 1].Tick? ==> es[|es| - 1].prerequisitesReady)
    ensures AllAcknowledged(es[i..]) <==>
            AllAcknowledged(es[..|es| - 1][i..]) && (es[|es| - 1].Tick? ==> es[|es| - 1].watchdogOk)
  {
    var n := |es| - 1;
    assert es[i..] == es[..n][i..] + [es[n]];
  }

  lemma ArmedStays(es: seq<GuardEvent>, i: nat, j: nat)
    requires es != [] && Armed(es[..|es| - 1], i, j)
    requires es[|es| - 1].Tick? ==> es[|es| - 1].prerequisitesReady
    ensures Armed(es, i, j)
  {
    var n := |es| - 1;
    assert es[..n][..j] == es[..j] && es[..n][..j + 1] == es[..j + 1];
    assert es[..n][i + 1..j + 1] == es[i + 1..j + 1];
    PrefixFacts(es, i);
  }

  lemma ObservedStays(es: seq<GuardEvent>, i: nat, j: nat, k: nat)
    requires es != [] && EarnedFrom(es[..|es| - 1], i, j, k)
    requires es[|es| - 1].Tick? ==> es[|es| - 1].prerequisitesReady && es[|es| - 1].watchdogOk
    ensures EarnedFrom(es, i, j, k)
  {
    ArmedStays(es, i, j);
    PrefixFacts(es, k);
  }

  lemma LowStep(u: Watchdog, e: GuardEvent)
    requires u.Valid() && Guard(u, e).phase.ArmLow?
    ensures e.Tick? ==> e.prerequisitesReady
    ensures Guard(u, e).elapsedNs <= if u.phase.ArmLow? then u.elapsedNs + (if e.Tick? then e.periodNs else 0) else 0
  {
  }

  lemma HeldLowSnoc(es: seq<GuardEvent>, i: nat)
    requires es != [] && RunWatchdog(es).phase.ArmLow?
    requires es[|es| - 1].Tick? ==> es[|es| - 1].prerequisitesReady
    requires i == |es| - 1 || HeldLow(es[..|es| - 1], i)
    ensures HeldLow(es, i)
  {
    var n := |es| - 1;
    assert es[..n + 1] == es;
    assert LowAfter(es, n + 1);
    if i < n {
      PrefixFacts(es, i);
      forall k | i < k <= n ensures LowAfter(es, k) {
        assert LowAfter(es[..n], k);
        assert es[..n][..k] == es[..k];
      }
    } else {
      assert es[i..] == [es[n]];
    }
  }

  lemma {:induction false} LowHistory(es: seq<GuardEvent>) returns (i: nat)
    requires RunWatchdog(es).phase.ArmLow?
    ensures HeldLow(es, i) && RunWatchdog(es).elapsedNs <= GuardTime(es[i + 1..])
  {
    var n := |es| - 1;
    LowStep(RunWatchdog(es[..n]), es[n]);
    if RunWatchdog(es[..n]).phase.ArmLow? {
      i := LowHistory(es[..n]);
      GuardTimeStep(es, i + 1);
    } else {
      i := n;
    }
    HeldLowSnoc(es, i);
  }

  lemma {:induction false} ArmedHistory(es: seq<GuardEvent>) returns (i: nat, j: nat)
    requires RunWatchdog(es).phase.WaitOk?
    ensures Armed(es, i, j)
  {
    var n := |es| - 1;
    var u := RunWatchdog(es[..n]);
    if u.phase.WaitOk? {
      i, j := ArmedHistory(es[..n]);
      ArmedStays(es, i, j);
    } else {
      i := LowHistory(es[..n]);
      j := n;
      PrefixFacts(es, i);
      GuardTimeStep(es, i + 1);
      assert es[i + 1..] == es[i + 1..n + 1];
      assert es[..n + 1] == es;
    }
  }

  lemma StableStep(u: Watchdog, e: GuardEvent)
    requires u.Valid() && Guard(u, e).phase.Stable?
    ensures e.Tick? ==> e.prerequisitesReady && e.watchdogOk
    ensures if u.phase.Stable? then Guard(u, e).elapsedNs <= u.elapsedNs + (if e.Tick? then e.periodNs else 0)
            else u.phase.WaitOk? && Guard(u, e).elapsedNs == 0
  {
  }

  lemma {:induction false} StableHistory(es: seq<GuardEvent>) returns (i: nat, j: nat, k: nat)
    requires RunWatchdog(es).phase.Stable?
    ensures EarnedFrom(es, i, j, k) && RunWatchdog(es).elapsedNs <= GuardTime(es[k + 1..])
  {
    var n := |es| - 1;
    StableStep(RunWatchdog(es[..n]), es[n]);
    assert RunWatchdog(es) == Guard(RunWatchdog(es[..n]), es[n]);
    hide Guard, Armed;
    if RunWatchdog(es[..n]).phase.Stable? {
      i, j, k := StableHistory(es[..n]);
      ObservedStays(es, i, j, k);
      GuardTimeStep(es, k + 1);
    } else {
      i, j := ArmedHistory(es[..n]);
      k := n;
      ArmedStays(es, i, j);
      assert es[n..] == [es[n]];
    }
  }

  lemma ReadyStep(u: Watchdog, e: GuardEvent)
    requires u.Valid() && !u.phase.WatchdogReady?
    requires Guard(u, e).phase.WatchdogReady?
    ensures u.phase.Stable? && e.Tick? && e.watchdogOk && e.prerequisitesReady
    ensures u.elapsedNs + e.periodNs >= CONTROLLER_WATCHDOG_STABLE_NS
  {
  }

  /** The guard becomes ready only after the watchdog was held low for 10 ms,
      enabled, and then acknowledged in every update of a stretch of 250 ms,
      with every prerequisite sampled true throughout. */
  lemma WatchdogReadyIsEarned(es: seq<GuardEvent>) returns (i: nat, j: nat, k: nat)
    requires es != [] && RunWatchdog(es).phase.WatchdogReady?
    requires !RunWatchdog(es[..|es| - 1]).phase.WatchdogReady?
    ensures EarnedFrom(es, i, j, k) && GuardTime(es[k + 1..]) >= CONTROLLER_WATCHDOG_STABLE_NS
  {
    var n := |es| - 1;
    ReadyStep(RunWatchdog(es[..n]), es[n]);
    i, j, k := StableHistory(es[..n]);
    ObservedStays(es, i, j, k);
    GuardTimeStep(es, k + 1);
  }

  /** One event: a committed runtime keeps its watchdog armed as long as it is
      acknowledged, whatever its prerequisites do. */
  lemma CommittedStep(w: Watchdog, e: GuardEvent)
    requires w.Valid() && w.runtimeCommitted
    ensures var t := Guard(w, e);
            && t.runtimeCommitted
            && (t.faulted <==> w.faulted || (e.Tick? && !e.watchdogOk))
            && (t.faulted <==> !t.Ready()) && (t.enable <==> t.Ready())
  {
  }

  /** Once committed, the runtime stays committed whatever happens later, and its
      watchdog stays armed exactly until the first missing acknowledgement, which is
      a fault that nothing later clears. */
  lemma {:induction false} CommittedGuardHoldsOrFaults(es: seq<GuardEvent>, later: seq<GuardEvent>)
    requires RunWatchdog(es).runtimeCommitted
    ensures var w, t := RunWatchdog(es), RunWatchdog(es + later);
            && t.runtimeCommitted
            && (t.faulted <==> w.faulted || !AllAcknowledged(later))
            && (t.Ready() <==> !t.faulted) && (t.enable <==> t.Ready())
  {
    if later == [] {
      assert es + later == es;
    } else {
      var n := |later| - 1;
      CommittedGuardHoldsOrFaults(es, later[..n]);
      assert (es + later)[..|es + later| - 1] == es + later[..n];
      CommittedStep(RunWatchdog(es + later[..n]), later[n]);
      assert later == later[..n] + [later[n]];
      assert (es + later)[|es + later| - 1] == later[n];
    }
  }
}
