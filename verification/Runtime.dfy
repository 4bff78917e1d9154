/** One servo cycle of the realtime controller.

    The supervisor it drives is kept abstract: its answers are arbitrary inputs
    (`Answers`), and what the controller tells it is a list of calls. */
module Runtime {
  import opened Words
  import opened Pendant
  import opened Startup

  const TASK_HEARTBEAT_TIMEOUT_NS := 100_000_000
  const PENDANT_PACKET_TIMEOUT_NS := 100_000_000

  // ---------------------------------------------------------------- freshness

  datatype Age = Age(lastValue: u32, ageNs: u64, initialized: bool) {
    function Update(value: u32, periodNs: u64): Age {
      if !initialized || value != lastValue then Age(value, 0, true)
      else this.(ageNs := SaturatingAdd(ageNs, periodNs))
    }

    function Elapse(periodNs: u64): Age {
      if initialized then this.(ageNs := SaturatingAdd(ageNs, periodNs)) else this
    }

    predicate IsFresh(timeoutNs: u64) {
      initialized && ageNs < timeoutNs
    }
  }

  const UNSEEN := Age(0, 0, false)

  class Freshness {
    var lastValue: u32
    var ageNs: u64
    var initialized: bool

    function Abs(): Age
      reads this
    {
      Age(lastValue, ageNs, initialized)
    }

    constructor ()
      ensures Abs() == UNSEEN
    {
      lastValue, ageNs, initialized := 0, 0, false;
    }

    method Update(value: u32, periodNs: u64)
      modifies this
      ensures Abs() == old(Abs()).Update(value, periodNs)
    {
      if !initialized || value != lastValue {
        lastValue := value;
        ageNs := 0;
        initialized := true;
      } else {
        ageNs := SaturatingAdd(ageNs, periodNs);
      }
    }

    method Elapse(periodNs: u64)
      modifies this
      ensures Abs() == old(Abs()).Elapse(periodNs)
    {
      if initialized {
        ageNs := SaturatingAdd(ageNs, periodNs);
      }
    }
  }

  // -------------------------------------------------------------- inputs, state

  datatype Inputs = Inputs(
    clearFaultRequest: u32,
    servoThreadReady: bool,
    mesaWatchdogHasBit: bool,
    mesaIoError: bool,
    softwareWatchdogOk: bool,
    uiReady: bool,
    taskMonitorConnected: bool,
    taskMonitorFault: bool,
    taskHeartbeat: u32,
    coherent: bool,
    connected: bool,
    serialFault: bool,
    quadratureFault: bool,
    resetAck: u32,
    sample: Sample,
    allHomed: bool,
    machineEstopped: bool,
    pendantModeEnabled: bool,
    estopResetRequest: bool)

  /** What the supervisor answers during the cycle: whether it retains a fault,
      whether recovery is active, whether its startup sequence is complete, and its
      own limit resets. */
  datatype Answers =
    Answers(faultRetained: bool, recoveryActive: bool, startupComplete: bool, limitReset: seq<bool>)

  datatype FaultCode =
    | QuadratureFailure
    | MesaStartupFailure
    | ControllerWatchdogFailure
    | LinkFailure
    | PacketTimedOut

  datatype Call =
    | Observe(packet: Option<Sample>)
    | ClearLatchedFault
    | BeginEstopReset
    | Fail(code: FaultCode)
    | UpdateSupervisor(packet: Option<Sample>, pendantModeEnabled: bool)

  datatype Link = Link(
    known: bool,
    valid: bool,
    connected: bool,
    serialFault: bool,
    quadratureFault: bool,
    estopPressed: bool)

  datatype PendingReset = PendingReset(request: u32, elapsedNs: u64)

  datatype Outputs = Outputs(
    clearFaultAck: u32,
    resetRequest: u32,
    heartbeat: bool,
    watchdogEnable: bool,
    mesaWatchdogClearRequested: bool,
    positionKnown: bool,
    mesaPhase: MesaPhase,
    watchdogPhase: WatchdogPhase,
    limitReset: seq<bool>)

  function NextGeneration(g: u32): u32 {
    var next := WrappingAdd(g, 1);
    if next < 1 then 1 else next
  }

  datatype Controller = Controller(
    clearFaultAck: u32,
    mesa: Mesa,
    watchdog: Watchdog,
    heartbeat: Heartbeat,
    taskFreshness: Age,
    pendantFreshness: Age,
    lastPendantSequence: Option<u32>,
    link: Link,
    estopResetHeld: bool,
    resetGeneration: u32,
    pendingReset: Option<PendingReset>)
  {
    function ClearFaultState(): Controller {
      this.(mesa := if mesa.faulted then NEW_MESA else mesa,
            watchdog := if watchdog.faulted then NEW_WATCHDOG else watchdog)
    }

    function RequestDecoderReset(): Controller {
      this.(resetGeneration := NextGeneration(resetGeneration),
            pendingReset := Some(PendingReset(NextGeneration(resetGeneration), 0)))
    }

    /** A new operator clear is dispatched before anything else is looked at. */
    function Preempted(periodNs: u64, i: Inputs): Controller {
      var cleared := ClearFaultState().(estopResetHeld := i.estopResetRequest, pendingReset := None);
      (if i.quadratureFault || link.quadratureFault then cleared.RequestDecoderReset() else cleared)
      .(clearFaultAck := i.clearFaultRequest, heartbeat := heartbeat.Update(periodNs))
    }

    function LinkAfter(i: Inputs): Link {
      if !i.coherent then link
      else Link(true, i.connected && !i.serialFault && !i.quadratureFault, i.connected, i.serialFault,
                i.quadratureFault, i.sample.estopPressed)
    }

    function Sampled(periodNs: u64, i: Inputs): Controller {
      var after := LinkAfter(i);
      this.(estopResetHeld := i.estopResetRequest,
            heartbeat := heartbeat.Update(periodNs),
            taskFreshness := if i.taskMonitorConnected && !i.taskMonitorFault
                             then taskFreshness.Update(i.taskHeartbeat, periodNs)
                             else taskFreshness.Elapse(periodNs),
            link := after,
            pendantFreshness := if i.coherent && after.connected && !after.serialFault
                                then pendantFreshness.Update(i.sample.sequence, periodNs)
                                else pendantFreshness.Elapse(periodNs))
    }

    predicate TaskValid(i: Inputs) {
      i.taskMonitorConnected && !i.taskMonitorFault && taskFreshness.IsFresh(TASK_HEARTBEAT_TIMEOUT_NS)
    }

    predicate PendantValid() {
      && link.known && link.connected && !link.serialFault
      && pendantFreshness.IsFresh(PENDANT_PACKET_TIMEOUT_NS)
      && link.valid
    }

    /** The pending request has run out of its 100 ms, or the operator holds the
        deadman: it is given up, whatever the bridge answers. */
    predicate Abandons(periodNs: u64, i: Inputs)
      requires pendingReset.Some?
    {
      || SaturatingAdd(pendingReset.value.elapsedNs, periodNs) >= PENDANT_PACKET_TIMEOUT_NS
      || (i.coherent && i.sample.deadmanHeld)
    }

    predicate Answered(periodNs: u64, i: Inputs) {
      pendingReset.Some? && !Abandons(periodNs, i) && i.coherent && i.resetAck == pendingReset.value.request
    }

    /** The reset is treated as acknowledged. */
    predicate Acknowledges(periodNs: u64, i: Inputs) {
      Answered(periodNs, i) && PendantValid()
    }

    function Waited(periodNs: u64, i: Inputs): Controller {
      if pendingReset.None? then this
      else if Abandons(periodNs, i) || Answered(periodNs, i) then this.(pendingReset := None)
      else this.(pendingReset :=
                   Some(PendingReset(pendingReset.value.request,
                                     SaturatingAdd(pendingReset.value.elapsedNs, periodNs))))
    }

    function Guarded(periodNs: u64, i: Inputs): Controller {
      var m := mesa.Update(MesaInput(periodNs, i.servoThreadReady, i.mesaWatchdogHasBit, i.mesaIoError));
      var w := watchdog.Update(periodNs, i.softwareWatchdogOk,
                               m.Ready() && i.uiReady && TaskValid(i) && PendantValid());
      this.(mesa := m, watchdog := w)
    }

    /** The packet is handed on only from a healthy link, and only once. */
    function NewPacket(i: Inputs): Option<Sample> {
      if i.coherent && link.valid && lastPendantSequence != Some(i.sample.sequence) then Some(i.sample) else None
    }

    function Forwarded(i: Inputs, a: Answers): Controller {
      if !(mesa.Ready() && watchdog.Ready()) then this
      else this.(lastPendantSequence := if NewPacket(i).Some? then Some(i.sample.sequence) else lastPendantSequence,
                 watchdog := if a.startupComplete then watchdog.CommitRuntime() else watchdog)
    }

    function LinkFault(): FaultCode {
      if link.quadratureFault then QuadratureFailure
      else if link.serialFault || !link.connected then LinkFailure
      else PacketTimedOut
    }

    function If(b: bool, call: Call): seq<Call> {
      if b then [call] else []
    }

    function FaultCalls(i: Inputs, a: Answers): seq<Call> {
      If(mesa.faulted, Fail(MesaStartupFailure))
      + If(watchdog.faulted, Fail(ControllerWatchdogFailure))
      + If(watchdog.runtimeCommitted && !(link.estopPressed || i.machineEstopped || a.recoveryActive)
           && !PendantValid(), Fail(LinkFault()))
    }

    function GuardCalls(i: Inputs, a: Answers): seq<Call> {
      FaultCalls(i, a)
      + If(mesa.Ready() && watchdog.Ready(),
           UpdateSupervisor(NewPacket(i), i.pendantModeEnabled && TaskValid(i)))
    }

    function Emit(positionKnown: bool, a: Answers): Outputs {
      Outputs(clearFaultAck, if pendingReset.Some? then pendingReset.value.request else 0, heartbeat.value,
              watchdog.enable, mesa.watchdogClearRequested, positionKnown, mesa.phase, watchdog.phase,
              if mesa.Ready() then a.limitReset else mesa.LimitResets())
    }
  }

  const NEW_CONTROLLER :=
    Controller(0, NEW_MESA, NEW_WATCHDOG, Heartbeat(false, 0), UNSEEN, UNSEEN, None,
               Link(false, false, false, true, false, true), false, 0, None)

  datatype Cycle = Cycle(after: Controller, outputs: Outputs, calls: seq<Call>)

  predicate Rising(c: Controller, i: Inputs) {
    i.estopResetRequest && !c.estopResetHeld
  }

  /** The pending reset and a retained fault's reset are settled first. */
  function Resolved(s: Controller, periodNs: u64, i: Inputs, retained: bool): Controller {
    var waited := s.Waited(periodNs, i);
    if retained && waited.link.quadratureFault then waited.RequestDecoderReset() else waited
  }

  function AfterSampling(s: Controller, periodNs: u64, i: Inputs, a: Answers, retained: bool)
    : (Controller, seq<Call>)
  {
    var r := Resolved(s, periodNs, i, retained);
    if s.Acknowledges(periodNs, i) || retained then
      var t := r.ClearFaultState();
      (t, [ClearLatchedFault] + t.If(!t.link.estopPressed && t.pendingReset.None?, BeginEstopReset))
    else
      var g := r.Guarded(periodNs, i);
      (g.Forwarded(i, a),
       r.If(r.link.quadratureFault && r.pendingReset.None?, Fail(QuadratureFailure)) + g.GuardCalls(i, a))
  }

  function Update(c: Controller, periodNs: u64, i: Inputs, a: Answers): Cycle {
    if i.clearFaultRequest != c.clearFaultAck then
      var t := c.Preempted(periodNs, i);
      Cycle(t, t.Emit(i.allHomed && t.taskFreshness.IsFresh(TASK_HEARTBEAT_TIMEOUT_NS), a), [ClearLatchedFault])
    else
      var s := c.Sampled(periodNs, i);
      var (t, calls) := AfterSampling(s, periodNs, i, a, Rising(c, i) && a.faultRetained);
      Cycle(t, t.Emit(i.allHomed && s.TaskValid(i), a),
            [Observe(if i.coherent then Some(i.sample) else None)] + calls)
  }

  // ------------------------------------------------------------------ the class

  class RuntimeController {
    var clearFaultAck: u32
    const mesaGuard: MesaStartupGuard
    const watchdogGuard: ControllerWatchdogGuard
    const heartbeat: HeartbeatGenerator
    const taskFreshness: Freshness
    const pendantFreshness: Freshness
    var lastPendantSequence: Option<u32>
    var link: Link
    var estopResetHeld: bool
    var resetGeneration: u32
    var pendingReset: Option<PendingReset>

    ghost const Repr: set<object> :=
      {this, mesaGuard, watchdogGuard, heartbeat, taskFreshness, pendantFreshness}

    ghost predicate Valid()
      reads Repr
    {
      taskFreshness != pendantFreshness && mesaGuard.Valid() && watchdogGuard.Valid()
    }

    ghost function Abs(): Controller
      reads Repr
    {
      Controller(clearFaultAck, mesaGuard.Abs(), watchdogGuard.Abs(), heartbeat.Abs(), taskFreshness.Abs(),
                 pendantFreshness.Abs(), lastPendantSequence, link, estopResetHeld, resetGeneration, pendingReset)
    }

    constructor ()
      ensures Valid() && Abs() == NEW_CONTROLLER && fresh(Repr)
    {
      clearFaultAck := 0;
      mesaGuard := new MesaStartupGuard();
      watchdogGuard := new ControllerWatchdogGuard();
      heartbeat := new HeartbeatGenerator();
      taskFreshness := new Freshness();
      pendantFreshness := new Freshness();
      lastPendantSequence := None;
      link := Link(false, false, false, true, false, true);
      estopResetHeld := false;
      resetGeneration := 0;
      pendingReset := None;
    }

    method ClearFaultState()
      requires Valid()
      modifies mesaGuard, watchdogGuard
      ensures Valid() && Abs() == old(Abs()).ClearFaultState()
    {
      if mesaGuard.faulted {
        mesaGuard.Renew();
      }
      if watchdogGuard.faulted {
        watchdogGuard.Renew();
      }
    }

    method RequestDecoderReset()
      requires Valid()
      modifies this
      ensures Valid() && Abs() == old(Abs()).RequestDecoderReset()
    {
      resetGeneration := NextGeneration(resetGeneration);
      pendingReset := Some(PendingReset(resetGeneration, 0));
    }

    method Preempt(periodNs: u64, i: Inputs)
      requires Valid()
      modifies Repr
      ensures Valid() && Abs() == old(Abs()).Preempted(periodNs, i)
    {
      ClearFaultState();
      estopResetHeld := i.estopResetRequest;
      pendingReset := None;
      if i.quadratureFault || link.quadratureFault {
        RequestDecoderReset();
      }
      clearFaultAck := i.clearFaultRequest;
      var _ := heartbeat.Update(periodNs);
    }

    method SampleInputs(periodNs: u64, i: Inputs)
      requires Valid()
      modifies Repr
      ensures Valid() && Abs() == old(Abs()).Sampled(periodNs, i)
    {
      hide Age.Update, Age.Elapse, Heartbeat.Update;
      estopResetHeld := i.estopResetRequest;
      var _ := heartbeat.Update(periodNs);
      if i.taskMonitorConnected && !i.taskMonitorFault {
        taskFreshness.Update(i.taskHeartbeat, periodNs);
      } else {
        taskFreshness.Elapse(periodNs);
      }
      if i.coherent {
        link := Link(true, i.connected && !i.serialFault && !i.quadratureFault, i.connected, i.serialFault,
                     i.quadratureFault, i.sample.estopPressed);
      }
      if i.coherent && link.connected && !link.serialFault {
        pendantFreshness.Update(i.sample.sequence, periodNs);
      } else {
        pendantFreshness.Elapse(periodNs);
      }
    }

    method AwaitReset(periodNs: u64, i: Inputs, pendantValid: bool) returns (acknowledged: bool)
      requires Valid() && pendantValid == Abs().PendantValid()
      modifies this
      ensures Valid() && Abs() == old(Abs()).Waited(periodNs, i)
      ensures acknowledged == old(Abs()).Acknowledges(periodNs, i)
    {
      acknowledged := false;
      if pendingReset.Some? {
        var pending := pendingReset.value.(elapsedNs := SaturatingAdd(pendingReset.value.elapsedNs, periodNs));
        if pending.elapsedNs >= PENDANT_PACKET_TIMEOUT_NS || (i.coherent && i.sample.deadmanHeld) {
          pendingReset := None;
        } else if i.coherent && i.resetAck == pending.request {
          acknowledged := pendantValid;
          pendingReset := None;
        } else {
          pendingReset := Some(pending);
        }
      }
    }

    method RunGuards(periodNs: u64, i: Inputs, prerequisitesButMesa: bool)
      requires Valid()
      requires prerequisitesButMesa == (i.uiReady && Abs().TaskValid(i) && Abs().PendantValid())
      modifies mesaGuard, watchdogGuard
      ensures Valid() && Abs() == old(Abs()).Guarded(periodNs, i)
    {
      mesaGuard.Update(MesaInput(periodNs, i.servoThreadReady, i.mesaWatchdogHasBit, i.mesaIoError));
      watchdogGuard.Update(periodNs, i.softwareWatchdogOk, mesaGuard.phase.MesaReady? && prerequisitesButMesa);
    }

    method ForwardPacket(i: Inputs, a: Answers) returns (packet: Option<Sample>)
      requires Valid() && mesaGuard.phase.MesaReady? && watchdogGuard.phase.WatchdogReady?
      modifies this, watchdogGuard
      ensures Valid() && Abs() == old(Abs()).Forwarded(i, a)
      ensures packet == old(Abs()).NewPacket(i)
    {
      packet := None;
      if i.coherent && link.valid && lastPendantSequence != Some(i.sample.sequence) {
        lastPendantSequence := Some(i.sample.sequence);
        packet := Some(i.sample);
      }
      if a.startupComplete && !watchdogGuard.runtimeCommitted {
        var committed := watchdogGuard.CommitRuntime();
        assert committed;
      }
    }

    /** One servo cycle. */
    method RunCycle(periodNs: u64, i: Inputs, a: Answers) returns (outputs: Outputs, calls: seq<Call>)
      requires Valid()
      modifies Repr
      ensures Valid()
      ensures Cycle(Abs(), outputs, calls) == Update(old(Abs()), periodNs, i, a)
    {
      hide Controller.Preempted, Controller.Sampled, AfterSampling, Age.IsFresh;
      if i.clearFaultRequest != clearFaultAck {
        Preempt(periodNs, i);
        outputs := Emit(i.allHomed && taskFreshness.Abs().IsFresh(TASK_HEARTBEAT_TIMEOUT_NS), a);
        return outputs, [ClearLatchedFault];
      }
      var rising := i.estopResetRequest && !estopResetHeld;
      SampleInputs(periodNs, i);
      var seen := Observe(if i.coherent then Some(i.sample) else None);
      var taskValid := i.taskMonitorConnected && !i.taskMonitorFault
                       && taskFreshness.Abs().IsFresh(TASK_HEARTBEAT_TIMEOUT_NS);
      calls := RunSampled(periodNs, i, a, rising && a.faultRetained, taskValid);
      calls := [seen] + calls;
      outputs := Emit(i.allHomed && taskValid, a);
    }

    // The cycle from the pending reset on, when no new clear request is seen.
    method RunSampled(periodNs: u64, i: Inputs, a: Answers, retained: bool, taskValid: bool)
      returns (calls: seq<Call>)
      requires Valid() && taskValid == Abs().TaskValid(i)
      modifies Repr
      ensures Valid()
      ensures (Abs(), calls) == AfterSampling(old(Abs()), periodNs, i, a, retained)
    {
      hide Controller.Abandons, Controller.Answered, Controller.Guarded, Controller.Forwarded,
           Controller.Acknowledges, Controller.GuardCalls, Age.IsFresh;
      var pendantValid := link.known && link.connected && !link.serialFault
                          && pendantFreshness.Abs().IsFresh(PENDANT_PACKET_TIMEOUT_NS) && link.valid;
      var acknowledged := AwaitReset(periodNs, i, pendantValid);
      if retained && link.quadratureFault {
        RequestDecoderReset();
      }
      if acknowledged || retained {
        ClearFaultState();
        calls := [ClearLatchedFault];
        assert calls + [] == calls;
        if !link.estopPressed && pendingReset.None? {
          calls := calls + [BeginEstopReset];
        }
        return;
      }
      calls := [];
      if link.quadratureFault && pendingReset.None? {
        calls := [Fail(QuadratureFailure)];
      }
      var tail := RunTail(periodNs, i, a, taskValid, pendantValid);
      calls := calls + tail;
    }

    method RunTail(periodNs: u64, i: Inputs, a: Answers, taskValid: bool, pendantValid: bool)
      returns (calls: seq<Call>)
      requires Valid() && taskValid == Abs().TaskValid(i) && pendantValid == Abs().PendantValid()
      modifies Repr
      ensures Valid()
      ensures Abs() == old(Abs()).Guarded(periodNs, i).Forwarded(i, a)
      ensures calls == old(Abs()).Guarded(periodNs, i).GuardCalls(i, a)
    {
      RunGuards(periodNs, i, i.uiReady && taskValid && pendantValid);
      calls := ReportFaults(i, a, pendantValid);
      var last := [];
      if mesaGuard.phase.MesaReady? && watchdogGuard.phase.WatchdogReady? {
        var packet := ForwardPacket(i, a);
        last := [UpdateSupervisor(packet, i.pendantModeEnabled && taskValid)];
      }
      calls := calls + last;
    }

    method ReportFaults(i: Inputs, a: Answers, pendantValid: bool) returns (calls: seq<Call>)
      requires Valid() && pendantValid == Abs().PendantValid()
      ensures calls == Abs().FaultCalls(i, a)
    {
      var mesa, watchdog, lost := [], [], [];
      if mesaGuard.faulted {
        mesa := [Fail(MesaStartupFailure)];
      }
      if watchdogGuard.faulted {
        watchdog := [Fail(ControllerWatchdogFailure)];
      }
      var estopActive := link.estopPressed || i.machineEstopped || a.recoveryActive;
      if watchdogGuard.runtimeCommitted && !estopActive && !pendantValid {
        lost := [Fail(if link.quadratureFault then QuadratureFailure
                      else if link.serialFault || !link.connected then LinkFailure
                      else PacketTimedOut)];
      }
      calls := mesa + watchdog + lost;
    }

    method Emit(positionKnown: bool, a: Answers) returns (o: Outputs)
      requires Valid()
      ensures o == Abs().Emit(positionKnown, a)
    {
      o := Outputs(clearFaultAck, if pendingReset.Some? then pendingReset.value.request else 0, heartbeat.value,
                   watchdogGuard.enable, mesaGuard.watchdogClearRequested, positionKnown, mesaGuard.phase,
                   watchdogGuard.phase,
                   if mesaGuard.phase.MesaReady? then a.limitReset else mesaGuard.limitReset);
    }
  }
}
