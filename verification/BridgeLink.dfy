/** When the bridge's link is lost, what it then shows, and how it comes back:
    stated by the arrival time of the last accepted packet. */
module BridgeLink {
  import opened Words
  import opened Text
  import opened Protocol
  import opened Bridge
  import opened BridgeRuns

  /** When the last accepted packet of the run arrived. */
  function LastArrival(s: State, es: seq<Event>): Option<u64> {
    if es == [] then None
    else
      var n := |es| - 1;
      if AcceptedPacket(Run(s, es[..n]), es[n]).Some? then Some(ArrivalNs(es[n])) else LastArrival(s, es[..n])
  }

  lemma RunSnoc(s: State, es: seq<Event>, e: Event)
    ensures Run(s, es + [e]) == Step(Run(s, es), e)
  {
    assert (es + [e])[..|es|] == es;
  }

  /** Without an accepted packet a link that stays up keeps everything it knows. */
  lemma QuietStepKeepsLink(u: State, e: Event)
    requires Coherent(u) && AcceptedPacket(u, e).None? && Step(u, e).snapshot.connected
    ensures Step(u, e).lastPacketNs == u.lastPacketNs && Step(u, e).snapshot == u.snapshot
  {
  }

  lemma StepKeepsTimeout(u: State, e: Event)
    ensures Step(u, e).timeoutNs == u.timeoutNs
  {
    if AcceptedPacket(u, e).Some? {
      AcceptingStep(u, e);
    }
  }

  lemma {:induction false} ArrivalIsKept(timeoutNs: u64, es: seq<Event>)
    ensures var s := Run(NewState(timeoutNs), es);
            && Coherent(s) && s.timeoutNs == timeoutNs
            && (s.snapshot.connected ==>
                  LastArrival(NewState(timeoutNs), es).Some? && s.lastPacketNs == LastArrival(NewState(timeoutNs), es))
  {
    EveryReachableStateIsCoherent(timeoutNs, es);
    if es != [] {
      var n := |es| - 1;
      var u := Run(NewState(timeoutNs), es[..n]);
      ArrivalIsKept(timeoutNs, es[..n]);
      StepKeepsTimeout(u, es[n]);
      if AcceptedPacket(u, es[n]).Some? {
        AcceptingStep(u, es[n]);
      } else if Step(u, es[n]).snapshot.connected {
        QuietStepKeepsLink(u, es[n]);
      }
    }
  }

  /** What a check finds on a link that is up. */
  predicate LostBy(s: State, t: State, ageNs: u64) {
    && !t.snapshot.connected && t.snapshot.serialFault && t.snapshot.estopPressed && !t.snapshot.deadmanHeld
    && t.snapshot.timeouts == (s.snapshot.timeouts + 1) % 0x1_0000_0000
    && t.snapshot.protocolErrors == s.snapshot.protocolErrors
    && t.snapshot.droppedPackets == s.snapshot.droppedPackets
    && t.snapshot.quadratureFault == s.snapshot.quadratureFault
    && t.snapshot.currentFault ==
       Some(BridgeFaultRecord(PacketTimeout,
         NO_EVIDENCE.(packetAgeNs := Some(ageNs), timeoutNs := Some(s.timeoutNs))))
  }

  /** In every reachable state: a timeout check keeps a link exactly as long as the last
      accepted packet is no older than the bound, and then changes nothing; otherwise
      it loses the link, counts one timeout and shows age and bound. */
  lemma TimeoutExactly(timeoutNs: u64, es: seq<Event>, nowNs: u64)
    requires Run(NewState(timeoutNs), es).snapshot.connected
    ensures var s, t := Run(NewState(timeoutNs), es), Run(NewState(timeoutNs), es + [TimeoutCheck(nowNs)]);
            var arrival := LastArrival(NewState(timeoutNs), es);
            && arrival.Some?
            && (t.snapshot.connected <==> nowNs <= arrival.value + timeoutNs)
            && (t.snapshot.connected ==> t == s)
            && (!t.snapshot.connected ==> LostBy(s, t, nowNs - arrival.value))
  {
    ArrivalIsKept(timeoutNs, es);
    RunSnoc(NewState(timeoutNs), es, TimeoutCheck(nowNs));
  }

  /** No packet of `es` is accepted. */
  predicate NoneAccepted(s: State, es: seq<Event>) {
    forall k | 0 <= k < |es| :: AcceptedPacket(Run(s, es[..k]), es[k]).None?
  }

  lemma {:induction false} StaysLost(s: State, es: seq<Event>)
    requires Coherent(s) && !s.snapshot.connected && NoneAccepted(s, es)
    ensures Coherent(Run(s, es)) && !Run(s, es).snapshot.connected
  {
    if es != [] {
      var n := |es| - 1;
      forall k | 0 <= k < n ensures AcceptedPacket(Run(s, es[..n][..k]), es[..n][k]).None? {
        assert es[..n][..k] == es[..k];
      }
      StaysLost(s, es[..n]);
      var u := Run(s, es[..n]);
      CoherentStep(u, es[n]);
      if Step(u, es[n]).snapshot.connected {
        QuietStepKeepsLink(u, es[n]);
      }
    }
  }

  /** Exactly which detent a packet passes on: its own, when the link is already up and
      neither it nor the counter shows a fault; otherwise none. */
  lemma DetentExactly(s: State, e: Event)
    requires Coherent(s) && AcceptedPacket(s, e).Some?
    ensures var p := AcceptedPacket(s, e).value;
            Step(s, e).snapshot.latestDetent ==
            if s.snapshot.connected && !s.snapshot.quadratureFault
               && p.quadratureErrors == s.snapshot.quadratureErrors then p.latestDetent else 0
  {
    AcceptingStep(s, e);
  }

  /** A lost link comes back with the next accepted packet, which passes no detent. */
  lemma FirstPacketPassesNoDetent(s: State, es: seq<Event>, e: Event)
    requires Coherent(s) && !s.snapshot.connected && NoneAccepted(s, es)
    requires AcceptedPacket(Run(s, es), e).Some?
    ensures var t := Run(s, es + [e]);
            t.snapshot.connected && t.snapshot.latestDetent == 0
  {
    StaysLost(s, es);
    RunSnoc(s, es, e);
    DetentExactly(Run(s, es), e);
    AcceptingStep(Run(s, es), e);
  }

  /** What the snapshot shows of an accepted packet. */
  lemma AcceptedPacketIsShown(s: State, e: Event)
    requires Coherent(s) && AcceptedPacket(s, e).Some?
    ensures var p, was, now := AcceptedPacket(s, e).value, s.snapshot, Step(s, e).snapshot;
            && now.connected && !now.serialFault && now.heartbeat == !was.heartbeat
            && now.sequence == p.sequence && now.milliseconds == p.milliseconds
            && now.axis == p.axis && now.multiplier == p.multiplier && now.selectorValid == p.selectorValid
            && now.deadmanHeld == p.deadmanHeld && now.estopPressed == p.estopPressed
            && now.detentCount == p.detentCount && now.transitionCount == p.transitionCount
            && now.quadratureErrors == p.quadratureErrors
            && now.protocolErrors == was.protocolErrors && now.timeouts == was.timeouts
            && now.lastProtocolError == was.lastProtocolError
            && (!was.connected ==> now.droppedPackets == was.droppedPackets)
            && (now.linkHealthy <==> !now.quadratureFault && !p.estopPressed)
            && (ChangesCounter(s, e) ==>
                  now.currentFault == Some(BridgeFaultRecord(QuadratureCounterChanged,
                    Evidence(None, None, None, None, None, None, Some(was.quadratureErrors), Some(p.quadratureErrors),
                             None, None))))
            && (now.quadratureFault && !ChangesCounter(s, e) ==> now.currentFault == s.latchedQuadratureFault)
  {
    AcceptingStep(s, e);
  }

  // ------------------------------------------------------------- refused lines

  /** The line or packet that `e` offers is refused, and why. */
  function Refusal(s: State, e: Event): Option<ProtocolError> {
    match e
    case Line(line, _) =>
      (match ReadLine(line)
       case Err(error) => Some(error)
       case Ok(None) => None
       case Ok(Some(packet)) => OutOfOrder(s, packet))
    case PacketIn(packet, _) => OutOfOrder(s, packet)
    case Rejected(error, _) => Some(error)
    case _ => None
  }

  /** On a link that is up, a sequence number must be 1 to 2^31 - 1 ahead of the last. */
  function OutOfOrder(s: State, packet: Packet): Option<ProtocolError> {
    if s.snapshot.connected && !(1 <= (packet.sequence - s.snapshot.sequence) % 0x1_0000_0000 <= 0x7fff_ffff)
    then Some(RepeatedOrReversedSequence)
    else None
  }

  function RefusedCount(s: State, es: seq<Event>): nat {
    if es == [] then 0
    else
      var n := |es| - 1;
      RefusedCount(s, es[..n]) + if Refusal(Run(s, es[..n]), es[n]).Some? then 1 else 0
  }

  /** The link is down, the error is counted once, and it is shown with its evidence. */
  predicate Rejects(s: State, t: State, error: ProtocolError, e: ErrorEvidence) {
    && !t.snapshot.connected && t.snapshot.estopPressed
    && t.snapshot.protocolErrors == WrappingAdd(s.snapshot.protocolErrors, 1)
    && t.snapshot.lastProtocolError == Some(ProtocolErrorRecord(error, e))
    && t.snapshot.currentFault ==
       Some(BridgeFaultRecord(ProtocolRejected,
         Evidence(Some(error), e.lineBytes, e.previousSequence, e.observedSequence, None, None, None, None, None,
                  None)))
  }

  lemma NotedError(s: State, error: ProtocolError, e: ErrorEvidence)
    ensures Rejects(s, s.NoteProtocolError(error, e), error, e)
  {
  }

  /** What a refusal shows of the line: its length, and the sequence numbers compared. */
  function Shown(s: State, e: Event): ErrorEvidence {
    match e
    case Line(line, _) =>
      (match ReadLine(line)
       case Ok(Some(packet)) =>
         ErrorEvidence(Some(Short(|line|)), Some(s.snapshot.sequence), Some(packet.sequence))
       case _ => ErrorEvidence(Some(Short(|line|)), None, None))
    case PacketIn(packet, _) => ErrorEvidence(None, Some(s.snapshot.sequence), Some(packet.sequence))
    case Rejected(_, None) => ErrorEvidence(None, None, None)
    case Rejected(_, Some(n)) => ErrorEvidence(Some(Short(n)), None, None)
    case _ => ErrorEvidence(None, None, None)
  }

  function Short(n: nat): u32 {
    if n <= 0xffff_ffff then n else 0xffff_ffff
  }

  lemma RefusesExactly(s: State, packet: Packet)
    requires Coherent(s)
    ensures s.SequenceRefused(packet) <==> OutOfOrder(s, packet).Some?
  {
  }

  lemma NothingRefused(s: State, e: Event)
    requires AcceptedPacket(s, e).None? && (e.Line? ==> ReadLine(e.line) == Ok(None)) && !e.Rejected? && !e.PacketIn?
    ensures Step(s, e).snapshot.protocolErrors == s.snapshot.protocolErrors
    ensures Step(s, e).snapshot.lastProtocolError == s.snapshot.lastProtocolError
  {
  }

  /** A refusal takes the link down, is counted once and named; nothing else is counted. */
  lemma RefusalExactly(s: State, e: Event)
    requires Coherent(s)
    ensures var t, refusal := Step(s, e), Refusal(s, e);
            if refusal.Some? then AcceptedPacket(s, e).None? && Rejects(s, t, refusal.value, Shown(s, e))
            else
              && t.snapshot.protocolErrors == s.snapshot.protocolErrors
              && t.snapshot.lastProtocolError == s.snapshot.lastProtocolError
  {
    hide Rejects, Coherent, OutOfOrder, State.SequenceRefused, State.NoteProtocolError;
    match e
    case Line(line, nowNs) =>
      match ReadLine(line) {
        case Err(error) => NotedError(s, error, ErrorEvidence(ClampLength(Some(|line|)), None, None));
        case Ok(None) => NothingRefused(s, e);
        case Ok(Some(packet)) => OfferedPacket(s, packet, nowNs, Some(|line|));
      }
    case PacketIn(packet, nowNs) => OfferedPacket(s, packet, nowNs, None);
    case Rejected(error, lineBytes) => NotedError(s, error, ErrorEvidence(ClampLength(lineBytes), None, None));
    case _ => NothingRefused(s, e);
  }

  lemma OfferedPacket(s: State, packet: Packet, nowNs: u64, lineBytes: Option<nat>)
    requires Coherent(s)
    ensures var t := s.AcceptWithLineLength(packet, nowNs, lineBytes);
            if s.SequenceRefused(packet) then
              && OutOfOrder(s, packet).Some?
              && Rejects(s, t, OutOfOrder(s, packet).value,
                         ErrorEvidence(ClampLength(lineBytes), Some(s.snapshot.sequence), Some(packet.sequence)))
            else
              && OutOfOrder(s, packet).None?
              && t.snapshot.protocolErrors == s.snapshot.protocolErrors
              && t.snapshot.lastProtocolError == s.snapshot.lastProtocolError
  {
    RefusesExactly(s, packet);
    assert s.SequenceRefused(packet) ==> s.previousSequence == Some(s.snapshot.sequence);
    hide Coherent, State.SequenceRefused;
    if s.SequenceRefused(packet) {
      NotedError(s, RepeatedOrReversedSequence,
                 ErrorEvidence(ClampLength(lineBytes), s.previousSequence, Some(packet.sequence)));
    }
  }

  lemma CountOn(count: nat)
    ensures WrappingAdd(count % 0x1_0000_0000, 1) == (count + 1) % 0x1_0000_0000
  {
  }

  /** Over every run, the counter shows how many lines and packets were refused. */
  lemma {:induction false} RefusalsAreCounted(timeoutNs: u64, es: seq<Event>)
    ensures Run(NewState(timeoutNs), es).snapshot.protocolErrors ==
            RefusedCount(NewState(timeoutNs), es) % 0x1_0000_0000
  {
    if es != [] {
      hide Step, Refusal, Coherent, WrappingAdd;
      var n := |es| - 1;
      RefusalsAreCounted(timeoutNs, es[..n]);
      EveryReachableStateIsCoherent(timeoutNs, es[..n]);
      RefusalExactly(Run(NewState(timeoutNs), es[..n]), es[n]);
      CountOn(RefusedCount(NewState(timeoutNs), es[..n]));
    }
  }

  /** What the other losses show: the bridge's own counters and the latched fault bit
      stay; a boot alone clears the latch. */
  lemma LossIsShown(s: State, e: Event)
    requires Coherent(s) && (e.OpenFailure? || e.ReadFailure? || IsBoot(e))
    ensures var was, now := s.snapshot, Step(s, e).snapshot;
            && !now.connected && now.serialFault && now.estopPressed && !now.deadmanHeld
            && now.latestDetent == 0 && now.faultResetAck == 0
            && now.protocolErrors == was.protocolErrors && now.timeouts == was.timeouts
            && now.droppedPackets == was.droppedPackets && now.heartbeat == was.heartbeat
            && (now.quadratureFault <==> was.quadratureFault && !IsBoot(e))
            && now.currentFault.Some?
            && now.currentFault.value.code ==
               (if e.OpenFailure? then SerialOpenFailure else if e.ReadFailure? then SerialReadFailure
                else AwaitingFirstPacket)
            && (!IsBoot(e) ==>
                  now.currentFault.value.evidence ==
                  Evidence(None, None, None, None, None, None, None, None, e.os, e.contract))
  {
  }

  // ------------------------------------------------------------- complete lines

  /** What a complete line says: a boot is one text; a packet is its canonical rendering,
      whatever its values; and what is refused before parsing is too long, not ASCII,
      or starts like another boot. */
  lemma LineExactly(line: string)
    ensures ReadLine(line) == Ok(None) <==> line == "BOOT,P3,MYST1474-001,MONITOR_ONLY"
    ensures forall p: Packet :: ReadLine(line) == Ok(Some(p)) <==> -1 <= p.latestDetent <= 1 && line == Render(p)
    ensures |line| > 128 ==> ReadLine(line) == Err(OverlongLine)
    ensures |line| <= 128 && !IsAscii(line) ==> ReadLine(line) == Err(NonAscii)
    ensures |line| <= 128 && IsAscii(line) && "BOOT," <= line && line != "BOOT,P3,MYST1474-001,MONITOR_ONLY" ==>
              ReadLine(line) == Err(UnexpectedBootMarker)
    ensures |line| <= 128 && IsAscii(line) && !("BOOT," <= line) && ParsePacket(line).Err? ==>
              ReadLine(line) == Err(ParsePacket(line).error)
  {
    BootIsShort();
    BootPrefix(line);
    if "BOOT," <= line {
      BootMarkerIsNoPacket(line);
    }
    hide ParsePacket, Render, IsAscii;
    forall p: Packet ensures ReadLine(line) == Ok(Some(p)) <==> -1 <= p.latestDetent <= 1 && line == Render(p) {
      ParserAcceptsExactlyRenderings(line, p);
      if line == Render(p) && -1 <= p.latestDetent <= 1 {
        RenderingIsShort(p);
      }
    }
  }

  lemma AsciiConcat(a: string, b: string)
    requires IsAscii(a) && IsAscii(b)
    ensures IsAscii(a + b)
  {
  }

  lemma BootParts()
    ensures IsAscii("BOOT,P3,MYS") && IsAscii("T1474-001,M") && IsAscii("ONITOR_ONLY")
  {
  }

  lemma BootIsShort()
    ensures |BOOT_MARKER| <= 128 && IsAscii(BOOT_MARKER) && "BOOT," <= BOOT_MARKER
  {
    var a, b, c := "BOOT,P3,MYS", "T1474-001,M", "ONITOR_ONLY";
    BootParts();
    hide IsAscii;
    AsciiConcat(a, b);
    AsciiConcat(a + b, c);
    assert BOOT_MARKER == a + b + c;
  }

  lemma BootPrefix(line: string)
    ensures "BOOT," <= line <==> |line| >= 5 && line[..5] == "BOOT,"
  {
  }

  // ------------------------------------------------------------ a pending reset

  /** The last nonzero request that was polled. */
  function LastPolled(es: seq<Event>): u32 {
    if es == [] then 0
    else
      var last := es[|es| - 1];
      if last.ObserveReset? && last.request != 0 then last.request else LastPolled(es[..|es| - 1])
  }

  lemma PollStep(s: State, e: Event)
    ensures Step(s, e).lastResetRequest ==
            if e.ObserveReset? && e.request != 0 then e.request else s.lastResetRequest
  {
    if AcceptedPacket(s, e).Some? {
      AcceptingStep(s, e);
    }
  }

  /** A request is consumed by its first poll, whatever became of it. */
  lemma {:induction false} PollsAreRemembered(timeoutNs: u64, es: seq<Event>)
    ensures Run(NewState(timeoutNs), es).lastResetRequest == LastPolled(es)
  {
    if es != [] {
      var n := |es| - 1;
      PollsAreRemembered(timeoutNs, es[..n]);
      PollStep(Run(NewState(timeoutNs), es[..n]), es[n]);
    }
  }

  /** In every reachable state: a poll of a new, nonzero request holds a reset exactly on
      a link that is up, faulted and at rest, and whose last packet is in time. */
  lemma ResetIsHeldExactly(timeoutNs: u64, es: seq<Event>, request: u32, nowNs: u64)
    requires request != 0 && request != LastPolled(es)
    ensures var s, t := Run(NewState(timeoutNs), es), Run(NewState(timeoutNs), es + [ObserveReset(request, nowNs)]);
            var arrival := LastArrival(NewState(timeoutNs), es);
            && t.snapshot == s.snapshot && t.lastResetRequest == request
            && (t.pendingReset.Some? <==>
                  && s.snapshot.connected && s.snapshot.quadratureFault
                  && !s.snapshot.estopPressed && !s.snapshot.deadmanHeld
                  && arrival.Some? && nowNs <= arrival.value + timeoutNs)
            && (t.pendingReset.Some? ==>
                  t.pendingReset.value == PendingFaultReset(request, s.snapshot.quadratureErrors, nowNs))
  {
    ArrivalIsKept(timeoutNs, es);
    PollsAreRemembered(timeoutNs, es);
    RunSnoc(NewState(timeoutNs), es, ObserveReset(request, nowNs));
  }

  /** A zero request withdraws; a repeated one changes nothing. */
  lemma OldRequestsHoldNothingNew(s: State, request: u32, nowNs: u64)
    requires request == 0 || request == s.lastResetRequest
    ensures Step(s, ObserveReset(request, nowNs)) == if request == 0 then s.(pendingReset := None) else s
  {
  }
}
