/** What holds of the serial bridge over every run of its public entry points. */
module BridgeRuns {
  import opened Words
  import opened Protocol
  import opened Bridge

  datatype Event =
    | ObserveReset(request: u32, nowNs: u64)
    | Line(line: string, nowNs: u64)
    | PacketIn(packet: Packet, nowNs: u64)
    | BootReset
    | OpenFailure(os: Option<i32>, contract: Option<int>)
    | ReadFailure(os: Option<i32>, contract: Option<int>)
    | Rejected(error: ProtocolError, lineBytes: Option<nat>)
    | TimeoutCheck(nowNs: u64)

  function Step(s: State, e: Event): State {
    match e
    case ObserveReset(request, nowNs) => s.ObserveFaultReset(request, nowNs)
    case Line(line, nowNs) => s.AcceptLine(line, nowNs)
    case PacketIn(packet, nowNs) => s.AcceptWithLineLength(packet, nowNs, None)
    case BootReset => s.ResetForBoot()
    case OpenFailure(os, contract) => s.TransportFault(SerialOpenFailure, os, contract)
    case ReadFailure(os, contract) => s.TransportFault(SerialReadFailure, os, contract)
    case Rejected(error, lineBytes) => s.Reject(error, lineBytes)
    case TimeoutCheck(nowNs) => s.CheckTimeout(nowNs)
  }

  function Run(s: State, es: seq<Event>): State {
    if es == [] then s else Step(Run(s, es[..|es| - 1]), es[|es| - 1])
  }

  /** The packet that event `e` delivers, if its sequence number is in order. */
  function AcceptedPacket(s: State, e: Event): Option<Packet> {
    var offered :=
      match e {
        case Line(line, _) => (match ReadLine(line) case Ok(p) => p case Err(_) => None)
        case PacketIn(packet, _) => Some(packet)
        case _ => None
      };
    if offered.Some? && !s.SequenceRefused(offered.value) then offered else None
  }

  function ArrivalNs(e: Event): u64 {
    match e case Line(_, nowNs) => nowNs case PacketIn(_, nowNs) => nowNs case _ => 0
  }

  predicate IsBoot(e: Event) {
    e.BootReset? || (e.Line? && ReadLine(e.line) == Ok(None))
  }

  /** An event that accepts a packet is exactly a `CountGap` and a `Publish`. */
  lemma AcceptingStep(s: State, e: Event)
    requires AcceptedPacket(s, e).Some?
    ensures Step(s, e) == s.Accept(AcceptedPacket(s, e).value, ArrivalNs(e))
  {
  }

  // ---------------------------------------------------------------- invariant

  /** Six different fields all record the same one bit, "a baseline is held",
      and the fault shown is determined by that bit and the quadrature latch. */
  predicate Coherent(s: State) {
    var up := !s.baselineRequired;
    && s.lastPacketNs.Some? == up
    && s.previousSequence.Some? == up
    && s.previousQuadratureErrors.Some? == up
    && s.snapshot.connected == up
    && s.snapshot.serialFault == !up
    && (up ==> s.previousSequence == Some(s.snapshot.sequence)
               && s.previousQuadratureErrors == Some(s.snapshot.quadratureErrors))
    && s.snapshot.currentFault.None? == (up && !s.snapshot.quadratureFault)
    && s.snapshot.linkHealthy == (up && !s.snapshot.quadratureFault && !s.snapshot.estopPressed)
    && s.snapshot.quadratureFault == s.latchedQuadratureFault.Some?
    && (s.latchedQuadratureFault.Some? ==>
          s.latchedQuadratureFault.value.code.QuadratureCounterChanged?
          && (up ==> s.snapshot.currentFault == s.latchedQuadratureFault))
    && (!up ==> s.snapshot.estopPressed && !s.snapshot.deadmanHeld && s.snapshot.latestDetent == 0
                && s.snapshot.faultResetAck == 0)
    && (s.snapshot.quadratureFault ==> s.snapshot.latestDetent == 0)
    && (s.pendingReset.Some? ==>
          && up && s.snapshot.quadratureFault
          && !s.snapshot.estopPressed && !s.snapshot.deadmanHeld
          && s.pendingReset.value.quadratureErrors == s.snapshot.quadratureErrors
          && s.pendingReset.value.request == s.lastResetRequest != 0)
  }

  lemma CoherentAfterPublish(s: State, p: Packet, nowNs: u64)
    requires Coherent(s)
    ensures Coherent(s.Accept(p, nowNs))
  {
    var c := s.CountGap(p);
    assert Coherent(c);
    assert c.FaultAfter(p, nowNs) == c.LatchAfter(p, nowNs).Some?;
  }

  lemma CoherentAfterLoss(s: State)
    requires Coherent(s)
    ensures forall code, os, contract | code != QuadratureCounterChanged ::
              Coherent(s.TransportFault(code, os, contract))
    ensures forall error, e :: Coherent(s.NoteProtocolError(error, e))
    ensures forall nowNs :: Coherent(s.CheckTimeout(nowNs))
    ensures Coherent(s.ResetForBoot())
  {
  }

  lemma CoherentStep(s: State, e: Event)
    requires Coherent(s)
    ensures Coherent(Step(s, e))
  {
    var p := AcceptedPacket(s, e);
    if p.Some? {
      AcceptingStep(s, e);
      CoherentAfterPublish(s, p.value, ArrivalNs(e));
    } else {
      CoherentAfterLoss(s);
    }
  }

  lemma {:induction false} EveryReachableStateIsCoherent(timeoutNs: u64, es: seq<Event>)
    ensures Coherent(Run(NewState(timeoutNs), es))
  {
    if es != [] {
      EveryReachableStateIsCoherent(timeoutNs, es[..|es| - 1]);
      CoherentStep(Run(NewState(timeoutNs), es[..|es| - 1]), es[|es| - 1]);
    }
  }

  // --------------------------------------------------------- quadrature latch

  predicate GrantedBy(s: State, e: Event) {
    AcceptedPacket(s, e).Some? && s.Grants(AcceptedPacket(s, e).value, ArrivalNs(e))
  }

  predicate ChangesCounter(s: State, e: Event) {
    AcceptedPacket(s, e).Some? && s.CounterChanged(AcceptedPacket(s, e).value)
  }

  /** The quadrature fault is a latch: one event sets it, exactly two clear it,
      and losing the link does neither. */
  lemma LatchTransitions(s: State, e: Event)
    requires Coherent(s)
    ensures Step(s, e).snapshot.quadratureFault <==>
            ChangesCounter(s, e) || (s.snapshot.quadratureFault && !IsBoot(e) && !GrantedBy(s, e))
  {
    if AcceptedPacket(s, e).Some? {
      AcceptingStep(s, e);
      assert s.CountGap(AcceptedPacket(s, e).value).snapshot.quadratureFault == s.snapshot.quadratureFault;
    }
  }

  lemma {:induction false} LatchHoldsUntilBootOrGrant(s: State, es: seq<Event>)
    requires Coherent(s) && s.snapshot.quadratureFault
    requires forall k | 0 <= k < |es| :: !IsBoot(es[k]) && !GrantedBy(Run(s, es[..k]), es[k])
    ensures Coherent(Run(s, es)) && Run(s, es).snapshot.quadratureFault
  {
    if es != [] {
      var n := |es| - 1;
      forall k | 0 <= k < n
        ensures !IsBoot(es[..n][k]) && !GrantedBy(Run(s, es[..n][..k]), es[..n][k])
      {
        assert es[..n][..k] == es[..k];
      }
      LatchHoldsUntilBootOrGrant(s, es[..n]);
      LatchTransitions(Run(s, es[..n]), es[n]);
      CoherentStep(Run(s, es[..n]), es[n]);
    }
  }

  /** The one packet that answers a reset: it shows the reset's generation, no
      fault, and no detent, and its counter is the one the request was made at. */
  lemma GrantedPacketIsClean(s: State, e: Event)
    requires Coherent(s) && GrantedBy(s, e)
    ensures var t := Step(s, e); var p := AcceptedPacket(s, e).value;
            && t.snapshot.faultResetAck == s.lastResetRequest != 0
            && t.snapshot.currentFault.None? && t.snapshot.latestDetent == 0
            && !t.snapshot.estopPressed && !t.snapshot.deadmanHeld
            && p.quadratureErrors == s.snapshot.quadratureErrors
            && t.pendingReset.None?
  {
    AcceptingStep(s, e);
  }

  /** A detent is passed on only between two packets of one healthy stretch. */
  lemma DetentNeedsHealthyPredecessor(s: State, e: Event)
    requires Coherent(s)
    requires AcceptedPacket(s, e).Some? && Step(s, e).snapshot.latestDetent != 0
    ensures var p := AcceptedPacket(s, e).value;
            && s.snapshot.connected && s.snapshot.currentFault.None?
            && p.quadratureErrors == s.snapshot.quadratureErrors
            && Later(p.sequence, s.snapshot.sequence)
            && Step(s, e).snapshot.latestDetent == p.latestDetent
  {
    AcceptingStep(s, e);
  }

  // ---------------------------------------------------------- dropped packets

  predicate Congruent(a: int, b: int) {
    (a - b) % 0x1_0000_0000 == 0
  }

  lemma CongruentSum(a: int, b: int, c: int, d: int)
    requires Congruent(a, b) && Congruent(c, d)
    ensures Congruent(a + c, b + d)
  {
    CongruentExactly(a, b, (a - b) / 0x1_0000_0000);
    CongruentExactly(c, d, (c - d) / 0x1_0000_0000);
    CongruentExactly(a + c, b + d, (a - b) / 0x1_0000_0000 + (c - d) / 0x1_0000_0000);
  }

  lemma CongruentChain(x: int, y: int, z: int, p: int, q: int, sum: int)
    requires Congruent(y - x, p) && Congruent(z - y, q) && sum == p + q
    ensures Congruent(z - x, sum)
  {
    CongruentSum(y - x, p, z - y, q);
  }

  lemma CongruentExactly(a: int, b: int, k: int)
    ensures a - b == k * 0x1_0000_0000 ==> Congruent(a, b)
    ensures Congruent(a, b) && k == (a - b) / 0x1_0000_0000 ==> a - b == k * 0x1_0000_0000
  {
  }

  lemma WrapsOnce(a: u32, b: u32)
    ensures WrappingAdd(a, b) == a + b || WrappingAdd(a, b) == a + b - 0x1_0000_0000
    ensures WrappingSub(a, b) == a - b || WrappingSub(a, b) == a - b + 0x1_0000_0000
  {
  }

  lemma GapArithmetic(previous: u32, current: u32, dropped: u32)
    requires Later(current, previous)
    ensures var delta := WrappingSub(current, previous);
            Congruent(current - previous, 1 + WrappingAdd(dropped, delta - 1) - dropped)
  {
    var delta := WrappingSub(current, previous);
    WrapsOnce(current, previous);
    WrapsOnce(dropped, delta - 1);
    hide WrappingAdd, WrappingSub, Congruent;
    var next := WrappingAdd(dropped, delta - 1);
    var gap := current - previous - (1 + next - dropped);
    assert gap == 0 || gap == 0x1_0000_0000 || gap == -0x1_0000_0000;
    CongruentExactly(current - previous, 1 + next - dropped, 0);
    CongruentExactly(current - previous, 1 + next - dropped, 1);
    CongruentExactly(current - previous, 1 + next - dropped, -1);
  }

  function Drops(s: State): u32 {
    s.snapshot.droppedPackets
  }

  function AcceptedCount(s: State, es: seq<Event>): nat {
    if es == [] then 0
    else
      var n := |es| - 1;
      AcceptedCount(s, es[..n]) + if AcceptedPacket(Run(s, es[..n]), es[n]).Some? then 1 else 0
  }

  predicate StaysConnected(s: State, es: seq<Event>) {
    forall k | 0 <= k <= |es| :: Run(s, es[..k]).snapshot.connected
  }

  lemma ConnectedPrefix(s: State, es: seq<Event>)
    requires es != [] && StaysConnected(s, es)
    ensures StaysConnected(s, es[..|es| - 1])
    ensures Run(s, es[..|es| - 1]).snapshot.connected && Run(s, es).snapshot.connected
  {
    var n := |es| - 1;
    assert es[..|es|] == es && es[..n][..n] == es[..n];
    forall k | 0 <= k <= n ensures Run(s, es[..n][..k]).snapshot.connected {
      assert es[..n][..k] == es[..k];
    }
  }

  /** The sequence numbers passed over from `s` to `t` are the accepted packets and
      those newly counted as dropped, modulo 2^32. */
  predicate Conserved(s: State, t: State, accepted: nat) {
    Congruent(t.snapshot.sequence - s.snapshot.sequence, accepted + Drops(t) - Drops(s))
  }

  lemma ConservationAdds(s: State, u: State, t: State, m: nat, n: nat)
    requires Conserved(s, u, m) && Conserved(u, t, n)
    ensures Conserved(s, t, m + n)
  {
    hide Congruent;
    CongruentChain(s.snapshot.sequence, u.snapshot.sequence, t.snapshot.sequence,
                   m + Drops(u) - Drops(s), n + Drops(t) - Drops(u), (m + n) + Drops(t) - Drops(s));
  }

  /** Over a stretch without a disconnect, every sequence number passed over is
      either an accepted packet or counted as dropped, modulo 2^32. */
  lemma {:induction false} DroppedPacketsAreConserved(s: State, es: seq<Event>)
    requires Coherent(s) && StaysConnected(s, es)
    ensures Coherent(Run(s, es)) && Conserved(s, Run(s, es), AcceptedCount(s, es))
  {
    hide Step, Coherent, AcceptedPacket, StaysConnected;
    if es != [] {
      hide Conserved;
      var n := |es| - 1;
      var u := Run(s, es[..n]);
      ConnectedPrefix(s, es);
      DroppedPacketsAreConserved(s, es[..n]);
      CoherentStep(u, es[n]);
      OneStepOfConservation(u, es[n]);
      ConservationAdds(s, u, Step(u, es[n]), AcceptedCount(s, es[..n]),
                       if AcceptedPacket(u, es[n]).Some? then 1 else 0);
    }
  }

  lemma OneStepOfConservation(u: State, e: Event)
    requires Coherent(u) && u.snapshot.connected && Step(u, e).snapshot.connected
    ensures Conserved(u, Step(u, e), if AcceptedPacket(u, e).Some? then 1 else 0)
  {
    var p := AcceptedPacket(u, e);
    if p.Some? {
      AcceptingStep(u, e);
      AcceptCountsTheGap(u, p.value, ArrivalNs(e));
    } else {
      QuietStepKeepsSnapshot(u, e);
    }
  }

  lemma AcceptCountsTheGap(u: State, p: Packet, nowNs: u64)
    requires u.previousSequence == Some(u.snapshot.sequence) && !u.SequenceRefused(p)
    ensures Congruent(u.Accept(p, nowNs).snapshot.sequence - u.snapshot.sequence,
                      1 + Drops(u.Accept(p, nowNs)) - Drops(u))
  {
    GapArithmetic(u.snapshot.sequence, p.sequence, Drops(u));
    assert u.Gap(p) == WrappingSub(p.sequence, u.snapshot.sequence) - 1;
  }

  lemma QuietStepKeepsSnapshot(u: State, e: Event)
    requires AcceptedPacket(u, e).None? && Step(u, e).snapshot.connected
    ensures Step(u, e).snapshot == u.snapshot
  {
  }
}
