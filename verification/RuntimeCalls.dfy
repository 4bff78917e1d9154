/** What one servo cycle tells the supervisor, stated by what the controller held
    before and what it sampled: when each fault is reported, when a fault is cleared,
    when a packet is handed on; and, over runs, that a silent link times out after
    100 ms of servo time. */
module RuntimeCalls {
  import opened Words
  import opened Pendant
  import opened Startup
  import opened Runtime

  // ------------------------------------------------- what the cycle has sampled

  predicate Connected(c: Controller, i: Inputs) {
    if i.coherent then i.connected else c.link.connected
  }

  predicate SerialFaulted(c: Controller, i: Inputs) {
    if i.coherent then i.serialFault else c.link.serialFault
  }

  predicate QuadratureFaulted(c: Controller, i: Inputs) {
    if i.coherent then i.quadratureFault else c.link.quadratureFault
  }

  predicate EstopPressedNow(c: Controller, i: Inputs) {
    if i.coherent then i.sample.estopPressed else c.link.estopPressed
  }

  /** The read shows a sequence number other than the last one seen. */
  predicate BringsSequence(c: Controller, i: Inputs) {
    && i.coherent && i.connected && !i.serialFault
    && (!c.pendantFreshness.initialized || i.sample.sequence != c.pendantFreshness.lastValue)
  }

  /** No new sequence number for 100 ms. */
  predicate Silent(c: Controller, periodNs: u64, i: Inputs) {
    && !BringsSequence(c, i)
    && (!c.pendantFreshness.initialized || c.pendantFreshness.ageNs + periodNs >= 100_000_000)
  }

  predicate Healthy(c: Controller, periodNs: u64, i: Inputs) {
    Connected(c, i) && !SerialFaulted(c, i) && !QuadratureFaulted(c, i) && !Silent(c, periodNs, i)
  }

  /** The task monitor is connected, faultless, and its heartbeat moved within 100 ms. */
  predicate TaskAlive(c: Controller, periodNs: u64, i: Inputs) {
    && i.taskMonitorConnected && !i.taskMonitorFault
    && (!c.taskFreshness.initialized || i.taskHeartbeat != c.taskFreshness.lastValue
        || c.taskFreshness.ageNs + periodNs < 100_000_000)
  }

  /** A new operator clear: nothing is sampled. */
  predicate Preempts(c: Controller, i: Inputs) {
    i.clearFaultRequest != c.clearFaultAck
  }

  /** The bridge's answer to the pending request is read in time, on a healthy link. */
  predicate AnswerComes(c: Controller, periodNs: u64, i: Inputs) {
    && c.pendingReset.Some? && c.pendingReset.value.elapsedNs + periodNs < 100_000_000
    && i.coherent && !i.sample.deadmanHeld && i.resetAck == c.pendingReset.value.request
    && Healthy(c, periodNs, i)
  }

  /** The operator's E-stop reset rises over a retained fault. */
  predicate RetainedReset(c: Controller, i: Inputs, a: Answers) {
    i.estopResetRequest && !c.estopResetHeld && a.faultRetained
  }

  predicate Settles(c: Controller, periodNs: u64, i: Inputs, a: Answers) {
    AnswerComes(c, periodNs, i) || RetainedReset(c, i, a)
  }

  /** The request still stands after this cycle's wait. */
  predicate StillPending(c: Controller, periodNs: u64, i: Inputs) {
    && c.pendingReset.Some? && c.pendingReset.value.elapsedNs + periodNs < 100_000_000
    && !(i.coherent && (i.sample.deadmanHeld || i.resetAck == c.pendingReset.value.request))
  }

  /** A committed runtime, and nothing that explains a lost link away. */
  predicate Guarding(c: Controller, i: Inputs, a: Answers) {
    c.watchdog.runtimeCommitted && !EstopPressedNow(c, i) && !i.machineEstopped && !a.recoveryActive
  }

  // ------------------------------------------------------- the link's invariant

  predicate Consistent(c: Controller) {
    && c.mesa.Valid() && c.watchdog.Valid()
    && (c.link.valid <==> c.link.connected && !c.link.serialFault && !c.link.quadratureFault)
    && (c.link.connected ==> c.link.known)
  }

  lemma MesaStaysValid(m: Mesa, u: MesaInput)
    requires m.Valid()
    ensures m.Update(u).Valid()
  {
  }

  lemma WatchdogStaysValid(w: Watchdog, periodNs: u64, ok: bool, ready: bool)
    requires w.Valid()
    ensures w.Update(periodNs, ok, ready).Valid() && w.CommitRuntime().Valid()
    ensures w.Update(periodNs, ok, ready).CommitRuntime().Valid()
    ensures w.Update(periodNs, ok, ready).runtimeCommitted == w.runtimeCommitted
  {
  }

  /** The cycle's verdict on the link is the one read off the inputs. */
  lemma SampledLink(c: Controller, periodNs: u64, i: Inputs)
    requires Consistent(c)
    ensures var s := c.Sampled(periodNs, i);
            && Consistent(s)
            && s.link.connected == Connected(c, i) && s.link.serialFault == SerialFaulted(c, i)
            && s.link.quadratureFault == QuadratureFaulted(c, i) && s.link.estopPressed == EstopPressedNow(c, i)
            && s.mesa == c.mesa && s.watchdog == c.watchdog && s.pendingReset == c.pendingReset
            && s.lastPendantSequence == c.lastPendantSequence && s.resetGeneration == c.resetGeneration
            && s.PendantValid() == Healthy(c, periodNs, i)
            && s.TaskValid(i) == TaskAlive(c, periodNs, i)
  {
  }

  lemma SettlesExactly(c: Controller, periodNs: u64, i: Inputs, a: Answers)
    requires Consistent(c)
    ensures var s := c.Sampled(periodNs, i);
            && (s.Acknowledges(periodNs, i) <==> AnswerComes(c, periodNs, i))
            && (s.Waited(periodNs, i).pendingReset.Some? <==> StillPending(c, periodNs, i))
  {
    SampledLink(c, periodNs, i);
    hide Controller.Sampled, Controller.PendantValid, Controller.TaskValid, Healthy, TaskAlive;
  }

  /** The guards and the link after the cycle's guard step. */
  lemma GuardStep(s: Controller, periodNs: u64, i: Inputs)
    ensures var g := s.Guarded(periodNs, i);
            && g.link == s.link && g.lastPendantSequence == s.lastPendantSequence
            && g.pendingReset == s.pendingReset && g.pendantFreshness == s.pendantFreshness
            && g.taskFreshness == s.taskFreshness
            && g.PendantValid() == s.PendantValid() && g.TaskValid(i) == s.TaskValid(i)
            && g.mesa == s.mesa.Update(MesaInput(periodNs, i.servoThreadReady, i.mesaWatchdogHasBit, i.mesaIoError))
            && g.watchdog == s.watchdog.Update(periodNs, i.softwareWatchdogOk,
                                               g.mesa.Ready() && i.uiReady && s.TaskValid(i) && s.PendantValid())
  {
    hide Mesa.Update, Watchdog.Update;
  }

  lemma {:induction false} InIf(c: Controller, b: bool, call: Call, other: Call)
    ensures other in c.If(b, call) <==> b && other == call
  {
  }

  lemma GuardCallsExactly(g: Controller, i: Inputs, a: Answers, call: Call)
    ensures call in g.GuardCalls(i, a) <==>
            || (g.mesa.faulted && call == Fail(MesaStartupFailure))
            || (g.watchdog.faulted && call == Fail(ControllerWatchdogFailure))
            || (g.watchdog.runtimeCommitted && !g.link.estopPressed && !i.machineEstopped && !a.recoveryActive
                && !g.PendantValid() && call == Fail(g.LinkFault()))
            || (g.mesa.Ready() && g.watchdog.Ready()
                && call == UpdateSupervisor(g.NewPacket(i), i.pendantModeEnabled && g.TaskValid(i)))
  {
    hide Controller.PendantValid, Controller.LinkFault, Controller.NewPacket, Controller.TaskValid;
  }

  /** An ordinary cycle: guards first, then the reports, then the supervisor. */
  predicate Ordinary(c: Controller, periodNs: u64, i: Inputs, a: Answers) {
    !Preempts(c, i) && !Settles(c, periodNs, i, a)
  }

  /** The state and the calls of an ordinary cycle, in terms of its guard step. */
  lemma OrdinaryCycle(c: Controller, periodNs: u64, i: Inputs, a: Answers, call: Call)
    requires Consistent(c) && Ordinary(c, periodNs, i, a)
    ensures var w := c.Sampled(periodNs, i).Waited(periodNs, i);
            var g := w.Guarded(periodNs, i);
            && Update(c, periodNs, i, a).after == g.Forwarded(i, a)
            && (call in Update(c, periodNs, i, a).calls <==>
                  || call == Observe(if i.coherent then Some(i.sample) else None)
                  || (w.link.quadratureFault && w.pendingReset.None? && call == Fail(QuadratureFailure))
                  || call in g.GuardCalls(i, a))
  {
    SettlesExactly(c, periodNs, i, a);
    hide Controller.Sampled, Controller.Waited, Controller.Guarded, Controller.Forwarded, Controller.GuardCalls,
         Controller.Acknowledges, AnswerComes;
    assert Rising(c, i) && a.faultRetained <==> RetainedReset(c, i, a);
    hide RetainedReset, Rising;
    var w := c.Sampled(periodNs, i).Waited(periodNs, i);
    assert Resolved(c.Sampled(periodNs, i), periodNs, i, false) == w;
    InIf(w, w.link.quadratureFault && w.pendingReset.None?, Fail(QuadratureFailure), call);
  }

  lemma WaitingKeepsTheRest(s: Controller, periodNs: u64, i: Inputs)
    ensures var w := s.Waited(periodNs, i);
            w == s.(pendingReset := w.pendingReset) && w.PendantValid() == s.PendantValid()
            && w.TaskValid(i) == s.TaskValid(i)
  {
  }

  lemma MesaFaultsExactly(m: Mesa, u: MesaInput)
    requires m.Valid()
    ensures m.Update(u).faulted <==> m.faulted || u.ioError || (m.phase.MesaReady? && u.watchdogHasBit)
  {
  }

  lemma WatchdogFaultsExactly(w: Watchdog, periodNs: u64, ok: bool, ready: bool)
    requires w.Valid()
    ensures w.Update(periodNs, ok, ready).faulted <==> w.faulted || (w.runtimeCommitted && !ok)
  {
  }

  /** The cause of each fault, by what was held before and what is sampled. */
  predicate Caused(c: Controller, periodNs: u64, i: Inputs, a: Answers, code: FaultCode) {
    match code
    case MesaStartupFailure => c.mesa.faulted || i.mesaIoError || (c.mesa.phase.MesaReady? && i.mesaWatchdogHasBit)
    case ControllerWatchdogFailure => c.watchdog.faulted || (c.watchdog.runtimeCommitted && !i.softwareWatchdogOk)
    case QuadratureFailure => QuadratureFaulted(c, i) && (Guarding(c, i, a) || !StillPending(c, periodNs, i))
    case LinkFailure =>
      Guarding(c, i, a) && !QuadratureFaulted(c, i) && (SerialFaulted(c, i) || !Connected(c, i))
    case PacketTimedOut =>
      && Guarding(c, i, a) && !QuadratureFaulted(c, i)
      && !SerialFaulted(c, i) && Connected(c, i) && Silent(c, periodNs, i)
  }

  /** In a cycle that neither preempts nor settles a reset, each fault is reported if
      and only if its cause holds. */
  lemma FaultsExactly(c: Controller, periodNs: u64, i: Inputs, a: Answers, code: FaultCode)
    requires Consistent(c) && Ordinary(c, periodNs, i, a)
    ensures Fail(code) in Update(c, periodNs, i, a).calls <==> Caused(c, periodNs, i, a, code)
  {
    var s := c.Sampled(periodNs, i);
    var w := s.Waited(periodNs, i);
    var g := w.Guarded(periodNs, i);
    OrdinaryCycle(c, periodNs, i, a, Fail(code));
    SampledLink(c, periodNs, i);
    SettlesExactly(c, periodNs, i, a);
    WaitingKeepsTheRest(s, periodNs, i);
    GuardStep(w, periodNs, i);
    GuardCallsExactly(g, i, a, Fail(code));
    MesaFaultsExactly(c.mesa, MesaInput(periodNs, i.servoThreadReady, i.mesaWatchdogHasBit, i.mesaIoError));
    WatchdogFaultsExactly(c.watchdog, periodNs, i.softwareWatchdogOk,
                          g.mesa.Ready() && i.uiReady && w.TaskValid(i) && w.PendantValid());
    WatchdogStaysValid(c.watchdog, periodNs, i.softwareWatchdogOk,
                       g.mesa.Ready() && i.uiReady && w.TaskValid(i) && w.PendantValid());
    hide Update, Controller.Sampled, Controller.Waited, Controller.Guarded, Controller.GuardCalls,
         Controller.PendantValid, Controller.TaskValid, Controller.Forwarded, Mesa.Update, Watchdog.Update,
         Silent, TaskAlive, StillPending;
  }

  // ---------------------------------------------------- clears, resets, packets

  lemma SettlingCycle(c: Controller, periodNs: u64, i: Inputs, a: Answers)
    requires Consistent(c) && !Preempts(c, i) && Settles(c, periodNs, i, a)
    ensures var u := Update(c, periodNs, i, a);
            var renewed := RetainedReset(c, i, a) && QuadratureFaulted(c, i);
            && u.calls == [Observe(if i.coherent then Some(i.sample) else None)] + [ClearLatchedFault]
                          + (if EstopPressedNow(c, i) || renewed || StillPending(c, periodNs, i) then []
                             else [BeginEstopReset])
            && u.after.mesa == (if c.mesa.faulted then NEW_MESA else c.mesa)
            && u.after.watchdog == (if c.watchdog.faulted then NEW_WATCHDOG else c.watchdog)
            && u.after.lastPendantSequence == c.lastPendantSequence
            && u.after == Resolved(c.Sampled(periodNs, i), periodNs, i, RetainedReset(c, i, a)).ClearFaultState()
  {
    SettlesExactly(c, periodNs, i, a);
    SampledLink(c, periodNs, i);
    WaitingKeepsTheRest(c.Sampled(periodNs, i), periodNs, i);
    hide Controller.Sampled, Controller.Waited, Controller.Acknowledges, Controller.PendantValid, Controller.TaskValid,
         AnswerComes, StillPending, Healthy, TaskAlive;
  }

  lemma PreemptingCycle(c: Controller, periodNs: u64, i: Inputs, a: Answers)
    requires Preempts(c, i)
    ensures var u := Update(c, periodNs, i, a);
            && u.calls == [ClearLatchedFault]
            && u.after.mesa == (if c.mesa.faulted then NEW_MESA else c.mesa)
            && u.after.watchdog == (if c.watchdog.faulted then NEW_WATCHDOG else c.watchdog)
            && u.after.link == c.link && u.after.lastPendantSequence == c.lastPendantSequence
            && u.after.taskFreshness == c.taskFreshness && u.after.pendantFreshness == c.pendantFreshness
  {
  }

  /** A fault is cleared by exactly three things: a new operator clear, the bridge's
      answer in time, and the operator's E-stop reset over a retained fault. */
  lemma ClearsExactly(c: Controller, periodNs: u64, i: Inputs, a: Answers)
    requires Consistent(c)
    ensures ClearLatchedFault in Update(c, periodNs, i, a).calls <==> Preempts(c, i) || Settles(c, periodNs, i, a)
    ensures BeginEstopReset in Update(c, periodNs, i, a).calls <==>
            && !Preempts(c, i) && Settles(c, periodNs, i, a)
            && !EstopPressedNow(c, i) && !StillPending(c, periodNs, i)
            && !(RetainedReset(c, i, a) && QuadratureFaulted(c, i))
  {
    if Preempts(c, i) {
      PreemptingCycle(c, periodNs, i, a);
    } else if Settles(c, periodNs, i, a) {
      SettlingCycle(c, periodNs, i, a);
    } else {
      var g := c.Sampled(periodNs, i).Waited(periodNs, i).Guarded(periodNs, i);
      OrdinaryCycle(c, periodNs, i, a, ClearLatchedFault);
      OrdinaryCycle(c, periodNs, i, a, BeginEstopReset);
      GuardCallsExactly(g, i, a, ClearLatchedFault);
      GuardCallsExactly(g, i, a, BeginEstopReset);
    }
    hide Update;
  }

  /** The supervisor is run in exactly the ordinary cycles that end with both guards
      ready; it gets a packet that was read whole from a healthy link and not handed on
      before, and the pendant is enabled only under a live task. */
  lemma UpdatesExactly(c: Controller, periodNs: u64, i: Inputs, a: Answers, packet: Option<Sample>, enabled: bool)
    requires Consistent(c)
    ensures var u := Update(c, periodNs, i, a);
            UpdateSupervisor(packet, enabled) in u.calls <==>
            && Ordinary(c, periodNs, i, a)
            && u.after.mesa.phase.MesaReady? && u.after.watchdog.phase.WatchdogReady?
            && enabled == (i.pendantModeEnabled && TaskAlive(c, periodNs, i))
            && packet == (if i.coherent && i.connected && !i.serialFault && !i.quadratureFault
                             && c.lastPendantSequence != Some(i.sample.sequence)
                          then Some(i.sample) else None)
  {
    var call := UpdateSupervisor(packet, enabled);
    if Preempts(c, i) {
      PreemptingCycle(c, periodNs, i, a);
    } else if Settles(c, periodNs, i, a) {
      SettlingCycle(c, periodNs, i, a);
    } else {
      OrdinaryUpdate(c, periodNs, i, a, call);
    }
    hide Update;
  }

  lemma OrdinaryUpdate(c: Controller, periodNs: u64, i: Inputs, a: Answers, call: Call)
    requires Consistent(c) && Ordinary(c, periodNs, i, a) && call.UpdateSupervisor?
    ensures var u := Update(c, periodNs, i, a);
            call in u.calls <==>
            && u.after.mesa.phase.MesaReady? && u.after.watchdog.phase.WatchdogReady?
            && call.pendantModeEnabled == (i.pendantModeEnabled && TaskAlive(c, periodNs, i))
            && call.packet == (if i.coherent && i.connected && !i.serialFault && !i.quadratureFault
                                  && c.lastPendantSequence != Some(i.sample.sequence)
                               then Some(i.sample) else None)
  {
    var s := c.Sampled(periodNs, i);
    var w := s.Waited(periodNs, i);
    var g := w.Guarded(periodNs, i);
    OrdinaryCycle(c, periodNs, i, a, call);
    SampledLink(c, periodNs, i);
    WaitingKeepsTheRest(s, periodNs, i);
    GuardStep(w, periodNs, i);
    GuardCallsExactly(g, i, a, call);
    MesaStaysValid(c.mesa, MesaInput(periodNs, i.servoThreadReady, i.mesaWatchdogHasBit, i.mesaIoError));
    WatchdogStaysValid(c.watchdog, periodNs, i.softwareWatchdogOk,
                       g.mesa.Ready() && i.uiReady && w.TaskValid(i) && w.PendantValid());
    hide Update, Controller.Sampled, Controller.Waited, Controller.Guarded, Controller.GuardCalls,
         Controller.PendantValid, Controller.TaskValid, Mesa.Update, Watchdog.Update, Healthy, TaskAlive;
  }

  // ------------------------------------------------------- the pending request

  /** When the controller asks the bridge for a reset, and how long the request stands. */
  lemma RequestExactly(c: Controller, periodNs: u64, i: Inputs, a: Answers)
    requires Consistent(c)
    ensures var t := Update(c, periodNs, i, a).after;
            var asks := if Preempts(c, i) then i.quadratureFault || c.link.quadratureFault
                        else RetainedReset(c, i, a) && QuadratureFaulted(c, i);
            && t.resetGeneration == (if !asks then c.resetGeneration
                                     else if c.resetGeneration == U32_MAX then 1 else c.resetGeneration + 1)
            && t.pendingReset ==
               (if asks then Some(PendingReset(t.resetGeneration, 0))
                else if !Preempts(c, i) && StillPending(c, periodNs, i) then
                  Some(PendingReset(c.pendingReset.value.request, c.pendingReset.value.elapsedNs + periodNs))
                else None)
  {
    if !Preempts(c, i) {
      SampledLink(c, periodNs, i);
      hide Controller.Sampled, Healthy, TaskAlive, Controller.PendantValid, Controller.TaskValid;
      SettlesExactly(c, periodNs, i, a);
      RequestAfterSampling(c, periodNs, i, a);
    }
  }

  lemma RequestAfterSampling(c: Controller, periodNs: u64, i: Inputs, a: Answers)
    requires Consistent(c) && !Preempts(c, i)
    ensures var s := c.Sampled(periodNs, i);
            var t := Update(c, periodNs, i, a).after;
            var r := Resolved(s, periodNs, i, RetainedReset(c, i, a));
            t.pendingReset == r.pendingReset && t.resetGeneration == r.resetGeneration
  {
    var s := c.Sampled(periodNs, i);
    SettlesExactly(c, periodNs, i, a);
    hide Controller.Sampled, Controller.Waited, Controller.Acknowledges, AnswerComes;
    if Settles(c, periodNs, i, a) {
      SettlingCycle(c, periodNs, i, a);
    } else {
      OrdinaryCycle(c, periodNs, i, a, ClearLatchedFault);
      GuardStep(s.Waited(periodNs, i), periodNs, i);
    }
    hide Update;
  }

  // ------------------------------------------------------- guards and outputs

  /** What the watchdog guard is told: all of it is sampled in this very cycle. */
  predicate Prepared(c: Controller, periodNs: u64, i: Inputs, mesa: Mesa) {
    mesa.phase.MesaReady? && i.uiReady && TaskAlive(c, periodNs, i) && Healthy(c, periodNs, i)
  }

  /** In an ordinary cycle both guards step; the runtime is committed when both are
      ready and the supervisor's startup is complete. In every other cycle a faulted
      guard starts over, and a sound one is left alone. */
  lemma GuardsExactly(c: Controller, periodNs: u64, i: Inputs, a: Answers)
    requires Consistent(c)
    ensures var t := Update(c, periodNs, i, a).after;
            if Ordinary(c, periodNs, i, a) then
              && t.mesa == c.mesa.Update(MesaInput(periodNs, i.servoThreadReady, i.mesaWatchdogHasBit, i.mesaIoError))
              && var w := c.watchdog.Update(periodNs, i.softwareWatchdogOk, Prepared(c, periodNs, i, t.mesa));
              t.watchdog == if t.mesa.phase.MesaReady? && w.phase.WatchdogReady? && a.startupComplete
                            then w.(runtimeCommitted := true) else w
            else
              && t.mesa == (if c.mesa.faulted then NEW_MESA else c.mesa)
              && t.watchdog == (if c.watchdog.faulted then NEW_WATCHDOG else c.watchdog)
  {
    if Preempts(c, i) {
      PreemptingCycle(c, periodNs, i, a);
      hide Update;
    } else if Settles(c, periodNs, i, a) {
      SettlingCycle(c, periodNs, i, a);
      hide Update;
    } else {
      OrdinaryGuards(c, periodNs, i, a);
    }
  }

  lemma OrdinaryGuards(c: Controller, periodNs: u64, i: Inputs, a: Answers)
    requires Consistent(c) && Ordinary(c, periodNs, i, a)
    ensures var t := Update(c, periodNs, i, a).after;
            && t.mesa == c.mesa.Update(MesaInput(periodNs, i.servoThreadReady, i.mesaWatchdogHasBit, i.mesaIoError))
            && var w := c.watchdog.Update(periodNs, i.softwareWatchdogOk, Prepared(c, periodNs, i, t.mesa));
            t.watchdog == if t.mesa.phase.MesaReady? && w.phase.WatchdogReady? && a.startupComplete
                          then w.(runtimeCommitted := true) else w
  {
    var s := c.Sampled(periodNs, i);
    var w := s.Waited(periodNs, i);
    var g := w.Guarded(periodNs, i);
    OrdinaryCycle(c, periodNs, i, a, ClearLatchedFault);
    SampledLink(c, periodNs, i);
    WaitingKeepsTheRest(s, periodNs, i);
    GuardStep(w, periodNs, i);
    MesaStaysValid(c.mesa, MesaInput(periodNs, i.servoThreadReady, i.mesaWatchdogHasBit, i.mesaIoError));
    WatchdogStaysValid(c.watchdog, periodNs, i.softwareWatchdogOk,
                       g.mesa.Ready() && i.uiReady && w.TaskValid(i) && w.PendantValid());
    hide Update, Controller.Sampled, Controller.Waited, Controller.Guarded, Controller.PendantValid,
         Controller.TaskValid, Mesa.Update, Watchdog.Update, Healthy, TaskAlive;
  }

  /** The pins that the cycle writes. */
  lemma OutputsExactly(c: Controller, periodNs: u64, i: Inputs, a: Answers)
    requires Consistent(c)
    ensures var o, t := Update(c, periodNs, i, a).outputs, Update(c, periodNs, i, a).after;
            && o.clearFaultAck == t.clearFaultAck == i.clearFaultRequest
            && o.resetRequest == (if t.pendingReset.Some? then t.pendingReset.value.request else 0)
            && t.heartbeat == c.heartbeat.Update(periodNs) && o.heartbeat == t.heartbeat.value
            && o.watchdogEnable == t.watchdog.enable
            && o.mesaWatchdogClearRequested == t.mesa.watchdogClearRequested
            && o.mesaPhase == t.mesa.phase && o.watchdogPhase == t.watchdog.phase
            && o.limitReset == (if t.mesa.phase.MesaReady? then a.limitReset
                                else if t.mesa.limitReset then [true, true, true] else [false, false, false])
            && o.positionKnown == (i.allHomed &&
                 if Preempts(c, i) then c.taskFreshness.initialized && c.taskFreshness.ageNs < 100_000_000
                 else TaskAlive(c, periodNs, i))
            && t.estopResetHeld == i.estopResetRequest
  {
    ConsistencyIsKept(c, periodNs, i, a);
    if !Preempts(c, i) {
      SampledLink(c, periodNs, i);
      SettledKeeps(c.Sampled(periodNs, i), periodNs, i, a, RetainedReset(c, i, a));
      assert Rising(c, i) && a.faultRetained <==> RetainedReset(c, i, a);
      hide AfterSampling;
    }
  }

  lemma SettledKeeps(s: Controller, periodNs: u64, i: Inputs, a: Answers, retained: bool)
    ensures var t := AfterSampling(s, periodNs, i, a, retained).0;
            && t.clearFaultAck == s.clearFaultAck && t.heartbeat == s.heartbeat
            && t.estopResetHeld == s.estopResetHeld && t.link == s.link
            && t.pendantFreshness == s.pendantFreshness && t.taskFreshness == s.taskFreshness
  {
    hide Mesa.Update, Watchdog.Update;
  }

  lemma ConsistencyIsKept(c: Controller, periodNs: u64, i: Inputs, a: Answers)
    requires Consistent(c)
    ensures Consistent(Update(c, periodNs, i, a).after)
  {
    var t := Update(c, periodNs, i, a).after;
    var s := c.Sampled(periodNs, i);
    GuardsExactly(c, periodNs, i, a);
    if Preempts(c, i) {
      PreemptingCycle(c, periodNs, i, a);
      hide Update;
    } else {
      SampledLink(c, periodNs, i);
      SettledKeeps(s, periodNs, i, a, Rising(c, i) && a.faultRetained);
      MesaStaysValid(c.mesa, MesaInput(periodNs, i.servoThreadReady, i.mesaWatchdogHasBit, i.mesaIoError));
      WatchdogStaysValid(c.watchdog, periodNs, i.softwareWatchdogOk, Prepared(c, periodNs, i, t.mesa));
      hide AfterSampling, Controller.Sampled, Mesa.Update, Watchdog.Update, Prepared, Ordinary;
    }
  }

  /** The sequence number handed on last is remembered, so none is handed on twice in a
      row; nothing else touches it. */
  lemma HandedOnOnce(c: Controller, periodNs: u64, i: Inputs, a: Answers)
    requires Consistent(c)
    ensures var u := Update(c, periodNs, i, a);
            && u.after.lastPendantSequence ==
               (if Handles(c, periodNs, i, a) && IsNewPacket(c, i) then Some(i.sample.sequence)
                else c.lastPendantSequence)
  {
    if Preempts(c, i) {
      PreemptingCycle(c, periodNs, i, a);
    } else if Settles(c, periodNs, i, a) {
      SettlingCycle(c, periodNs, i, a);
    } else {
      OrdinaryHandOn(c, periodNs, i, a);
    }
    hide Update;
  }

  /** The cycle runs the supervisor. */
  predicate Handles(c: Controller, periodNs: u64, i: Inputs, a: Answers) {
    var t := Update(c, periodNs, i, a).after;
    Ordinary(c, periodNs, i, a) && t.mesa.phase.MesaReady? && t.watchdog.phase.WatchdogReady?
  }

  predicate IsNewPacket(c: Controller, i: Inputs) {
    && i.coherent && i.connected && !i.serialFault && !i.quadratureFault
    && c.lastPendantSequence != Some(i.sample.sequence)
  }

  lemma OrdinaryHandOn(c: Controller, periodNs: u64, i: Inputs, a: Answers)
    requires Consistent(c) && Ordinary(c, periodNs, i, a)
    ensures Update(c, periodNs, i, a).after.lastPendantSequence ==
            if Handles(c, periodNs, i, a) && IsNewPacket(c, i) then Some(i.sample.sequence)
            else c.lastPendantSequence
  {
    var s := c.Sampled(periodNs, i);
    var w := s.Waited(periodNs, i);
    var g := w.Guarded(periodNs, i);
    OrdinaryCycle(c, periodNs, i, a, ClearLatchedFault);
    SampledLink(c, periodNs, i);
    WaitingKeepsTheRest(s, periodNs, i);
    GuardStep(w, periodNs, i);
    MesaStaysValid(c.mesa, MesaInput(periodNs, i.servoThreadReady, i.mesaWatchdogHasBit, i.mesaIoError));
    WatchdogStaysValid(c.watchdog, periodNs, i.softwareWatchdogOk,
                       g.mesa.Ready() && i.uiReady && w.TaskValid(i) && w.PendantValid());
    hide Update, Controller.Sampled, Controller.Waited, Controller.Guarded, Controller.GuardCalls,
         Controller.PendantValid, Controller.TaskValid, Mesa.Update, Watchdog.Update, Healthy, TaskAlive, Ordinary;
  }
}
