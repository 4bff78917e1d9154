/** The serial bridge's state machine: what one complete line, one timeout check
    or one reset request does to the snapshot that the controller samples. */
module Bridge {
  import opened Words
  import opened Text
  import opened Protocol

  datatype BridgeFaultCode =
    | AwaitingFirstPacket
    | SerialOpenFailure
    | SerialReadFailure
    | ProtocolRejected
    | PacketTimeout
    | QuadratureCounterChanged
  {
    predicate IsSerialFault() {
      !QuadratureCounterChanged?
    }
  }

  datatype Evidence = Evidence(
    protocolError: Option<ProtocolError>,
    lineBytes: Option<u32>,
    previousSequence: Option<u32>,
    observedSequence: Option<u32>,
    packetAgeNs: Option<u64>,
    timeoutNs: Option<u64>,
    previousQuadratureErrors: Option<u32>,
    observedQuadratureErrors: Option<u32>,
    operatingSystemError: Option<i32>,
    transportContractResult: Option<int>)

  const NO_EVIDENCE := Evidence(None, None, None, None, None, None, None, None, None, None)

  datatype BridgeFaultRecord = BridgeFaultRecord(code: BridgeFaultCode, evidence: Evidence)

  datatype ErrorEvidence = ErrorEvidence(
    lineBytes: Option<u32>, previousSequence: Option<u32>, observedSequence: Option<u32>)

  datatype ProtocolErrorRecord = ProtocolErrorRecord(code: ProtocolError, evidence: ErrorEvidence)

  datatype Snapshot = Snapshot(
    faultResetAck: u32,
    connected: bool,
    serialFault: bool,
    quadratureFault: bool,
    linkHealthy: bool,
    heartbeat: bool,
    estopPressed: bool,
    deadmanHeld: bool,
    selectorValid: bool,
    axis: AxisSelector,
    multiplier: MultiplierSelector,
    latestDetent: i32,
    detentCount: i32,
    transitionCount: i32,
    quadratureErrors: u32,
    sequence: u32,
    milliseconds: u32,
    protocolErrors: u32,
    lastProtocolError: Option<ProtocolErrorRecord>,
    currentFault: Option<BridgeFaultRecord>,
    droppedPackets: u32,
    timeouts: u32)

  const AWAITING := BridgeFaultRecord(AwaitingFirstPacket, NO_EVIDENCE)

  const SAFE_SNAPSHOT :=
    Snapshot(0, false, true, false, false, false, true, false, false, AxisInvalid, MultiplierInvalid,
             0, 0, 0, 0, 0, 0, 0, None, Some(AWAITING), 0, 0)

  datatype PendingFaultReset =
    PendingFaultReset(request: u32, quadratureErrors: u32, requestedNs: u64)

  // ------------------------------------------------ specification of one step

  datatype State = State(
    snapshot: Snapshot,
    timeoutNs: u64,
    lastPacketNs: Option<u64>,
    previousSequence: Option<u32>,
    previousQuadratureErrors: Option<u32>,
    latchedQuadratureFault: Option<BridgeFaultRecord>,
    baselineRequired: bool,
    lastResetRequest: u32,
    pendingReset: Option<PendingFaultReset>)
  {
    /** The link is up, fresh, at rest and faulted: a reset may be tried now. */
    predicate ResetEligible(nowNs: u64) {
      && lastPacketNs.Some? && SaturatingSub(nowNs, lastPacketNs.value) <= timeoutNs
      && !baselineRequired
      && snapshot.connected
      && !snapshot.serialFault
      && snapshot.quadratureFault
      && !snapshot.estopPressed
      && !snapshot.deadmanHeld
    }

    function ObserveFaultReset(request: u32, nowNs: u64): State {
      if request == 0 then this.(pendingReset := None)
      else if request == lastResetRequest then this
      else
        this.(lastResetRequest := request,
              pendingReset :=
                if ResetEligible(nowNs)
                then Some(PendingFaultReset(request, snapshot.quadratureErrors, nowNs))
                else None)
    }

    function SafeSnapshot(fault: BridgeFaultRecord): Snapshot {
      SAFE_SNAPSHOT.(serialFault := fault.code.IsSerialFault(),
                     quadratureFault := snapshot.quadratureFault,
                     heartbeat := snapshot.heartbeat,
                     estopPressed := true,
                     protocolErrors := snapshot.protocolErrors,
                     lastProtocolError := snapshot.lastProtocolError,
                     currentFault := Some(fault),
                     droppedPackets := snapshot.droppedPackets,
                     timeouts := snapshot.timeouts,
                     quadratureErrors := snapshot.quadratureErrors)
    }

    // Every way of losing the link: the snapshot turns safe, the baseline is
    // forgotten, a pending reset is dropped; the quadrature latch survives.
    function Disconnect(safe: Snapshot): State {
      this.(snapshot := safe, lastPacketNs := None, previousSequence := None,
            previousQuadratureErrors := None, baselineRequired := true, pendingReset := None)
    }

    function ResetForBoot(): State {
      Disconnect(SAFE_SNAPSHOT.(heartbeat := snapshot.heartbeat,
                                protocolErrors := snapshot.protocolErrors,
                                lastProtocolError := snapshot.lastProtocolError,
                                droppedPackets := snapshot.droppedPackets,
                                timeouts := snapshot.timeouts))
      .(latchedQuadratureFault := None)
    }

    function TransportFault(code: BridgeFaultCode, os: Option<i32>, contract: Option<int>): State {
      Disconnect(SafeSnapshot(BridgeFaultRecord(code,
        NO_EVIDENCE.(operatingSystemError := os, transportContractResult := contract))))
    }

    function NoteProtocolError(error: ProtocolError, e: ErrorEvidence): State {
      var fault := BridgeFaultRecord(ProtocolRejected,
        NO_EVIDENCE.(protocolError := Some(error), lineBytes := e.lineBytes,
                     previousSequence := e.previousSequence, observedSequence := e.observedSequence));
      Disconnect(SafeSnapshot(fault).(protocolErrors := WrappingAdd(snapshot.protocolErrors, 1),
                                      lastProtocolError := Some(ProtocolErrorRecord(error, e))))
    }

    predicate SequenceRefused(packet: Packet) {
      previousSequence.Some? && !Later(packet.sequence, previousSequence.value)
    }

    predicate CounterChanged(packet: Packet) {
      previousQuadratureErrors.Some? && packet.quadratureErrors != previousQuadratureErrors.value
    }

    /** The pending reset is granted by this packet. */
    predicate Grants(packet: Packet, nowNs: u64) {
      && pendingReset.Some?
      && !baselineRequired
      && snapshot.connected
      && !snapshot.serialFault
      && !packet.estopPressed
      && !packet.deadmanHeld
      && SaturatingSub(nowNs, pendingReset.value.requestedNs) <= timeoutNs
      && packet.quadratureErrors == pendingReset.value.quadratureErrors
      && previousQuadratureErrors == Some(pendingReset.value.quadratureErrors)
    }

    function Gap(packet: Packet): u32 {
      if previousSequence.None? then 0
      else
        var delta := WrappingSub(packet.sequence, previousSequence.value);
        if delta > 1 then delta - 1 else 0
    }

    function CountGap(packet: Packet): State {
      this.(snapshot := snapshot.(droppedPackets := WrappingAdd(snapshot.droppedPackets, Gap(packet))))
    }

    /** The latch after this packet: a changed counter replaces it, a granted
        reset clears it. */
    function LatchAfter(packet: Packet, nowNs: u64): Option<BridgeFaultRecord> {
      if CounterChanged(packet) then Some(CounterFault(previousQuadratureErrors, packet.quadratureErrors))
      else if Grants(packet, nowNs) then None
      else latchedQuadratureFault
    }

    predicate FaultAfter(packet: Packet, nowNs: u64) {
      CounterChanged(packet) || (snapshot.quadratureFault && !Grants(packet, nowNs))
    }

    function Publish(packet: Packet, nowNs: u64): State {
      var granted := Grants(packet, nowNs);
      var latch := LatchAfter(packet, nowNs);
      var fault := FaultAfter(packet, nowNs);
      this.(
        snapshot := PacketSnapshot(packet,
          if granted then pendingReset.value.request else snapshot.faultResetAck, fault,
          if baselineRequired || fault || granted then 0 else packet.latestDetent,
          if !fault then None
          else if latch.Some? then latch
          else Some(CounterFault(None, packet.quadratureErrors)), snapshot),
        lastPacketNs := Some(nowNs), previousSequence := Some(packet.sequence),
        previousQuadratureErrors := Some(packet.quadratureErrors),
        latchedQuadratureFault := latch, baselineRequired := false, pendingReset := None)
    }

    function Accept(packet: Packet, nowNs: u64): State {
      CountGap(packet).Publish(packet, nowNs)
    }

    function AcceptWithLineLength(packet: Packet, nowNs: u64, lineBytes: Option<nat>): State {
      if SequenceRefused(packet) then
        NoteProtocolError(RepeatedOrReversedSequence,
          ErrorEvidence(ClampLength(lineBytes), previousSequence, Some(packet.sequence)))
      else Accept(packet, nowNs)
    }

    function Reject(error: ProtocolError, lineBytes: Option<nat>): State {
      NoteProtocolError(error, ErrorEvidence(ClampLength(lineBytes), None, None))
    }

    function AcceptLine(line: string, nowNs: u64): State {
      match ReadLine(line)
      case Ok(None) => ResetForBoot()
      case Ok(Some(packet)) => AcceptWithLineLength(packet, nowNs, Some(|line|))
      case Err(error) => Reject(error, Some(|line|))
    }

    predicate TimedOut(nowNs: u64) {
      lastPacketNs.Some? && SaturatingSub(nowNs, lastPacketNs.value) > timeoutNs
    }

    function CheckTimeout(nowNs: u64): State {
      if !TimedOut(nowNs) then this
      else
        var fault := BridgeFaultRecord(PacketTimeout,
          NO_EVIDENCE.(packetAgeNs := Some(SaturatingSub(nowNs, lastPacketNs.value)),
                       timeoutNs := Some(timeoutNs)));
        Disconnect(SafeSnapshot(fault).(timeouts := WrappingAdd(snapshot.timeouts, 1)))
    }
  }

  function CounterFault(previous: Option<u32>, observed: u32): BridgeFaultRecord {
    BridgeFaultRecord(QuadratureCounterChanged,
      NO_EVIDENCE.(previousQuadratureErrors := previous, observedQuadratureErrors := Some(observed)))
  }

  function PacketSnapshot(packet: Packet, ack: u32, fault: bool, detent: i32,
                          currentFault: Option<BridgeFaultRecord>, was: Snapshot): Snapshot {
    Snapshot(ack, true, false, fault, !fault && !packet.estopPressed, !was.heartbeat,
             packet.estopPressed, packet.deadmanHeld, packet.selectorValid, packet.axis,
             packet.multiplier, detent, packet.detentCount, packet.transitionCount,
             packet.quadratureErrors, packet.sequence, packet.milliseconds, was.protocolErrors,
             was.lastProtocolError, currentFault, was.droppedPackets, was.timeouts)
  }

  function ClampLength(lineBytes: Option<nat>): Option<u32> {
    match lineBytes
    case None => None
    case Some(n) => Some(if n > U32_MAX then U32_MAX else n)
  }

  /** What one complete line says: a boot, a packet, or a protocol error. */
  function ReadLine(line: string): Result<Option<Packet>, ProtocolError> {
    if |line| > MAX_SERIAL_LINE_BYTES then Err(OverlongLine)
    else if !IsAscii(line) then Err(NonAscii)
    else if line == BOOT_MARKER then Ok(None)
    else if |line| >= 5 && line[..5] == "BOOT," then Err(UnexpectedBootMarker)
    else
      match ParsePacket(line)
      case Ok(packet) => Ok(Some(packet))
      case Err(error) => Err(error)
  }

  function NewState(timeoutNs: u64): State {
    State(SAFE_SNAPSHOT, timeoutNs, None, None, None, None, true, 0, None)
  }

  // ------------------------------------------------------------ the class

  class BridgeState {
    var snapshot: Snapshot
    var timeoutNs: u64
    var lastPacketNs: Option<u64>
    var previousSequence: Option<u32>
    var previousQuadratureErrors: Option<u32>
    var latchedQuadratureFault: Option<BridgeFaultRecord>
    var baselineRequired: bool
    var lastResetRequest: u32
    var pendingReset: Option<PendingFaultReset>

    ghost function Abs(): State
      reads this
    {
      State(snapshot, timeoutNs, lastPacketNs, previousSequence, previousQuadratureErrors,
            latchedQuadratureFault, baselineRequired, lastResetRequest, pendingReset)
    }

    constructor (timeoutNs: u64)
      ensures Abs() == NewState(timeoutNs)
    {
      this.snapshot := SAFE_SNAPSHOT;
      this.timeoutNs := timeoutNs;
      this.lastPacketNs := None;
      this.previousSequence := None;
      this.previousQuadratureErrors := None;
      this.latchedQuadratureFault := None;
      this.baselineRequired := true;
      this.lastResetRequest := 0;
      this.pendingReset := None;
    }

    method ObserveFaultReset(request: u32, nowNs: u64)
      modifies this
      ensures Abs() == old(Abs()).ObserveFaultReset(request, nowNs)
    {
      if request == 0 {
        pendingReset := None;
        return;
      }
      if request == lastResetRequest {
        return;
      }
      lastResetRequest := request;
      pendingReset := None;
      var recent := lastPacketNs.Some? && SaturatingSub(nowNs, lastPacketNs.value) <= timeoutNs;
      if recent && !baselineRequired && snapshot.connected && !snapshot.serialFault
         && snapshot.quadratureFault && !snapshot.estopPressed && !snapshot.deadmanHeld {
        pendingReset := Some(PendingFaultReset(request, snapshot.quadratureErrors, nowNs));
      }
    }

    method ForgetBaseline()
      modifies this
      ensures Abs() == old(Abs()).Disconnect(old(snapshot))
    {
      pendingReset := None;
      lastPacketNs := None;
      previousSequence := None;
      previousQuadratureErrors := None;
      baselineRequired := true;
    }

    method ResetForBoot()
      modifies this
      ensures Abs() == old(Abs()).ResetForBoot()
    {
      snapshot := SAFE_SNAPSHOT.(heartbeat := snapshot.heartbeat,
                                 protocolErrors := snapshot.protocolErrors,
                                 lastProtocolError := snapshot.lastProtocolError,
                                 currentFault := Some(AWAITING),
                                 droppedPackets := snapshot.droppedPackets,
                                 timeouts := snapshot.timeouts);
      ForgetBaseline();
      latchedQuadratureFault := None;
    }

    method NoteTransportFault(code: BridgeFaultCode, os: Option<i32>, contract: Option<int>)
      modifies this
      ensures Abs() == old(Abs()).TransportFault(code, os, contract)
    {
      var fault := BridgeFaultRecord(code,
        NO_EVIDENCE.(operatingSystemError := os, transportContractResult := contract));
      snapshot := SafeSnapshot(fault);
      ForgetBaseline();
    }

    function SafeSnapshot(fault: BridgeFaultRecord): (s: Snapshot)
      reads this
      ensures s == Abs().SafeSnapshot(fault)
    {
      SAFE_SNAPSHOT.(serialFault := fault.code.IsSerialFault(),
                     quadratureFault := snapshot.quadratureFault,
                     heartbeat := snapshot.heartbeat,
                     protocolErrors := snapshot.protocolErrors,
                     lastProtocolError := snapshot.lastProtocolError,
                     currentFault := Some(fault),
                     droppedPackets := snapshot.droppedPackets,
                     timeouts := snapshot.timeouts,
                     quadratureErrors := snapshot.quadratureErrors)
    }

    method NoteProtocolError(error: ProtocolError, e: ErrorEvidence)
      modifies this
      ensures Abs() == old(Abs()).NoteProtocolError(error, e)
    {
      var next := WrappingAdd(snapshot.protocolErrors, 1);
      var fault := BridgeFaultRecord(ProtocolRejected,
        NO_EVIDENCE.(protocolError := Some(error), lineBytes := e.lineBytes,
                     previousSequence := e.previousSequence, observedSequence := e.observedSequence));
      snapshot := SafeSnapshot(fault).(protocolErrors := next,
                               lastProtocolError := Some(ProtocolErrorRecord(error, e)));
      ForgetBaseline();
    }

    method AcceptWithLineLength(packet: Packet, nowNs: u64, lineBytes: Option<nat>)
      returns (r: Result<(), ProtocolError>)
      modifies this
      ensures Abs() == old(Abs()).AcceptWithLineLength(packet, nowNs, lineBytes)
      ensures r == if old(Abs()).SequenceRefused(packet) then Err(RepeatedOrReversedSequence) else Ok(())
    {
      if previousSequence.Some? {
        var previous := previousSequence.value;
        var delta := WrappingSub(packet.sequence, previous);
        if delta == 0 || delta > I32_MAX {
          NoteProtocolError(RepeatedOrReversedSequence,
            ErrorEvidence(ClampLength(lineBytes), Some(previous), Some(packet.sequence)));
          return Err(RepeatedOrReversedSequence);
        }
        if delta > 1 {
          snapshot := snapshot.(droppedPackets := WrappingAdd(snapshot.droppedPackets, delta - 1));
        }
      }
      Publish(packet, nowNs);
      return Ok(());
    }

    method Publish(packet: Packet, nowNs: u64)
      modifies this
      ensures Abs() == old(Abs()).Publish(packet, nowNs)
    {
      var firstPacket := baselineRequired;
      var quadratureFault := snapshot.quadratureFault;
      var pending := pendingReset;
      pendingReset := None;
      var resetAccepted :=
        pending.Some? && !firstPacket && snapshot.connected && !snapshot.serialFault
        && !packet.estopPressed && !packet.deadmanHeld
        && SaturatingSub(nowNs, pending.value.requestedNs) <= timeoutNs
        && packet.quadratureErrors == pending.value.quadratureErrors
        && previousQuadratureErrors == Some(pending.value.quadratureErrors);
      if resetAccepted {
        quadratureFault := false;
        latchedQuadratureFault := None;
      }
      if previousQuadratureErrors.Some? && packet.quadratureErrors != previousQuadratureErrors.value {
        quadratureFault := true;
        latchedQuadratureFault := Some(CounterFault(previousQuadratureErrors, packet.quadratureErrors));
      }
      var latestDetent := if firstPacket || quadratureFault || resetAccepted then 0 else packet.latestDetent;
      var currentFault := None;
      if quadratureFault {
        currentFault := if latchedQuadratureFault.Some? then latchedQuadratureFault
                        else Some(CounterFault(None, packet.quadratureErrors));
      }
      snapshot := PacketSnapshot(packet, if resetAccepted then pending.value.request else snapshot.faultResetAck,
                                 quadratureFault, latestDetent, currentFault, snapshot);
      lastPacketNs := Some(nowNs);
      previousSequence := Some(packet.sequence);
      previousQuadratureErrors := Some(packet.quadratureErrors);
      baselineRequired := false;
    }

    method AcceptLine(line: string, nowNs: u64) returns (r: Result<(), ProtocolError>)
      modifies this
      ensures Abs() == old(Abs()).AcceptLine(line, nowNs)
      ensures r.Ok? <==> ReadLine(line).Ok? &&
                         (ReadLine(line).value.Some? ==> !old(Abs()).SequenceRefused(ReadLine(line).value.value))
    {
      if |line| > MAX_SERIAL_LINE_BYTES {
        NoteProtocolError(OverlongLine, ErrorEvidence(ClampLength(Some(|line|)), None, None));
        return Err(OverlongLine);
      }
      if !IsAscii(line) {
        NoteProtocolError(NonAscii, ErrorEvidence(ClampLength(Some(|line|)), None, None));
        return Err(NonAscii);
      }
      if line == BOOT_MARKER {
        ResetForBoot();
        return Ok(());
      }
      if |line| >= 5 && line[..5] == "BOOT," {
        NoteProtocolError(UnexpectedBootMarker, ErrorEvidence(ClampLength(Some(|line|)), None, None));
        return Err(UnexpectedBootMarker);
      }
      match ParsePacket(line)
      case Ok(packet) =>
        r := AcceptWithLineLength(packet, nowNs, Some(|line|));
      case Err(error) =>
        NoteProtocolError(error, ErrorEvidence(ClampLength(Some(|line|)), None, None));
        return Err(error);
    }

    method CheckTimeout(nowNs: u64) returns (timedOut: bool)
      modifies this
      ensures Abs() == old(Abs()).CheckTimeout(nowNs)
      ensures timedOut == old(Abs()).TimedOut(nowNs)
    {
      if lastPacketNs.None? {
        return false;
      }
      var packetAgeNs := SaturatingSub(nowNs, lastPacketNs.value);
      if packetAgeNs <= timeoutNs {
        return false;
      }
      var timeouts := WrappingAdd(snapshot.timeouts, 1);
      var fault := BridgeFaultRecord(PacketTimeout,
        NO_EVIDENCE.(packetAgeNs := Some(packetAgeNs), timeoutNs := Some(timeoutNs)));
      snapshot := SafeSnapshot(fault).(timeouts := timeouts);
      ForgetBaseline();
      return true;
    }
  }
}
