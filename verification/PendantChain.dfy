/** From serial line to jog decision: bridge, snapshot, controller and
    interpreter in one run, under every interleaving. */
module PendantChain {
  import opened Words
  import opened Protocol
  import opened Pendant
  import opened Startup
  import opened Runtime
  import opened Handshake
  import Bridge
  import BridgeRuns

  /** Action `n` hands `sample` to the supervisor as a new packet. */
  predicate Delivers(t: seq<System>, n: nat, sample: Sample)
    requires n + 1 < |t|
  {
    exists call <- t[n + 1].said :: IsDelivery(call, sample)
  }

  predicate IsDelivery(call: Call, sample: Sample) {
    call.UpdateSupervisor? && call.packet == Some(sample)
  }

  /** The interpreter has processed `samples` since its last reset, each of them
      delivered by an action of the run, in order; the supervisor may have left
      any other delivered packet unprocessed. */
  predicate Feeds(t: seq<System>, run: seq<Action>, times: seq<nat>, samples: seq<Sample>) {
    && |t| == |run| + 1 && |times| == |samples|
    && (forall j | 0 <= j < |times| :: times[j] < |run| && Delivers(t, times[j], samples[j]))
    && (forall j, k | 0 <= j < k < |times| :: times[j] < times[k])
  }

  /** Only a healthy, coherently read packet is handed on. */
  lemma ForwardedFromHealthyLink(c: Controller, periodNs: u64, i: Inputs, a: Answers)
    ensures forall call, sample | call in Update(c, periodNs, i, a).calls && IsDelivery(call, sample) ::
              i.coherent && sample == i.sample && i.connected && !i.serialFault && !i.quadratureFault
  {
    var s := c.Sampled(periodNs, i);
    SettledLink(s, periodNs, i, a, Rising(c, i) && a.faultRetained);
  }

  lemma SettledLink(s: Controller, periodNs: u64, i: Inputs, a: Answers, retained: bool)
    ensures forall call, sample | call in AfterSampling(s, periodNs, i, a, retained).1 && IsDelivery(call, sample) ::
              i.coherent && sample == i.sample && s.link.valid
  {
    hide Mesa.Update, Watchdog.Update;
  }

  // ------------------------------------------------------ packets behind samples

  /** The packet accepted by action `k`, if it accepts one. */
  function Arrival(t: seq<System>, run: seq<Action>, k: nat): Option<Packet>
    requires |t| == |run| + 1 && k < |run|
  {
    if run[k].Serve? then BridgeRuns.AcceptedPacket(t[k].bridge, Polled(run[k].event, t[k].pin)) else None
  }

  /** A connected snapshot is the one the last accepted packet left. */
  lemma {:induction false} SnapshotHasAPacket(t: seq<System>, run: seq<Action>, n: nat) returns (c: nat)
    requires Execution(t, run) && n <= |run| && t[n].bridge.snapshot.connected
    ensures c < n && Arrival(t, run, c).Some? && t[c + 1].bridge.snapshot == t[n].bridge.snapshot
    ensures forall k | c < k < n :: Arrival(t, run, k).None?
  {
    hide Update, BridgeRuns.Step, BridgeRuns.AcceptedPacket;
    assert n > 0 && Steps(t, run, n - 1);
    if Arrival(t, run, n - 1).Some? {
      c := n - 1;
    } else {
      if run[n - 1].Serve? {
        BridgeRuns.QuietStepKeepsSnapshot(t[n - 1].bridge, Polled(run[n - 1].event, t[n - 1].pin));
      }
      c := SnapshotHasAPacket(t, run, n - 1);
    }
  }

  lemma DeliveredWasAccepted(t: seq<System>, run: seq<Action>, n: nat, sample: Sample) returns (p: nat, c: nat)
    requires Execution(t, run) && n < |run| && Delivers(t, n, sample)
    ensures c < p < n && run[p].Publication? && (forall k | p < k < n :: !run[k].Publication?)
    ensures Arrival(t, run, c).Some? && (forall k | c < k < p :: Arrival(t, run, k).None?)
    ensures sample == SampleOf(t[c + 1].bridge.snapshot)
    ensures t[c + 1].bridge.snapshot.connected && !t[c + 1].bridge.snapshot.quadratureFault
  {
    hide Update, BridgeRuns.Step, BridgeRuns.AcceptedPacket;
    assert Steps(t, run, n) && run[n].Servo?;
    ForwardedFromHealthyLink(t[n].controller, run[n].periodNs, Seen(run[n].inputs, t[n].published),
                             run[n].answers);
    p := SnapshotWasPublished(t, run, n);
    c := SnapshotHasAPacket(t, run, p);
  }

  // ----------------------------------------------------------------- the theorem

  /** Behind every jog stand two packets the bridge accepted, in order. The later
      one arrived on a link that was already up and free of any fault, was not the
      answer to a reset and did not change the error counter; so neither the first
      packet after a boot, a timeout, a protocol or a serial fault, nor a reset
      packet, nor one under a latched quadrature fault ever jogs. The jog is that
      packet's own detent, on the axis and increment both packets select, with the
      deadman held and the E-stop released in both. */
  lemma JogIsBackedByTwoPackets(t: seq<System>, run: seq<Action>, times: seq<nat>, samples: seq<Sample>,
                                sample: Sample, n: nat, intent: JogIntent)
    returns (earlier: nat, later: nat)
    requires Execution(t, run) && Feeds(t, run, times, samples)
    requires n < |run| && Delivers(t, n, sample) && (forall j | 0 <= j < |times| :: times[j] < n)
    requires Process(After(samples), sample).1 == Jog(intent)
    ensures earlier < later < n && Arrival(t, run, earlier).Some? && Arrival(t, run, later).Some?
    ensures var first, second := Arrival(t, run, earlier).value, Arrival(t, run, later).value;
            && SampleOf(t[later + 1].bridge.snapshot) == sample
            && SampleOf(t[earlier + 1].bridge.snapshot) == samples[|samples| - 1]
            && Selects(first, second, intent)
            && intent.deltaPulses == second.latestDetent * ClockwiseSign(intent.axis)
                                     * IncrementPulses(MotionMultiplier(second.multiplier).value)
    ensures t[later].bridge.snapshot.connected && t[later].bridge.snapshot.currentFault.None?
    ensures !BridgeRuns.GrantedBy(t[later].bridge, run[later].event)
    ensures Later(Arrival(t, run, later).value.sequence, t[later].bridge.snapshot.sequence)
    ensures t[later].bridge.snapshot.quadratureErrors == Arrival(t, run, later).value.quadratureErrors
  {
    hide Update, BridgeRuns.Step, BridgeRuns.AcceptedPacket, BridgeRuns.GrantedBy, Delivers, Execution;
    JogExactly(samples, sample, intent);
    var m := times[|times| - 1];
    var p0, p;
    p0, earlier := DeliveredWasAccepted(t, run, m, samples[|samples| - 1]);
    p, later := DeliveredWasAccepted(t, run, n, sample);
    assert p0 <= p && earlier <= later;
    AcceptedPacketIsShown(t, run, earlier);
    AcceptedPacketIsShown(t, run, later);
    DetentArrivedOnHealthyLink(t, run, later);
  }

  /** What both packets say, and how they are ordered. */
  predicate Selects(first: Packet, second: Packet, intent: JogIntent) {
    && Later(second.sequence, first.sequence)
    && first.quadratureErrors == second.quadratureErrors
    && first.axis == second.axis && first.multiplier == second.multiplier
    && MotionAxis(second.axis) == Some(intent.axis) && MotionMultiplier(second.multiplier).Some?
    && first.deadmanHeld && second.deadmanHeld
    && !first.estopPressed && !second.estopPressed
    && first.selectorValid && second.selectorValid
    && second.latestDetent in {-1, 1}
  }

  lemma AcceptedPacketIsShown(t: seq<System>, run: seq<Action>, c: nat)
    requires Execution(t, run) && c < |run| && Arrival(t, run, c).Some?
    ensures var packet := Arrival(t, run, c).value;
            && SampleOf(t[c + 1].bridge.snapshot).(latestDetent := packet.latestDetent) ==
               Sample(packet.sequence, packet.quadratureErrors, packet.latestDetent, packet.axis, packet.multiplier,
                      packet.deadmanHeld, packet.estopPressed, packet.selectorValid)
            && t[c + 1].bridge.snapshot.latestDetent in {0, packet.latestDetent}
  {
    hide Update, BridgeRuns.Step, BridgeRuns.AcceptedPacket;
    assert Steps(t, run, c);
    BridgeRuns.AcceptingStep(t[c].bridge, Polled(run[c].event, t[c].pin));
  }

  lemma DetentArrivedOnHealthyLink(t: seq<System>, run: seq<Action>, c: nat)
    requires Execution(t, run) && c < |run| && Arrival(t, run, c).Some?
    requires t[c + 1].bridge.snapshot.latestDetent != 0
    ensures t[c].bridge.snapshot.connected && t[c].bridge.snapshot.currentFault.None?
    ensures !BridgeRuns.GrantedBy(t[c].bridge, run[c].event)
    ensures var packet := Arrival(t, run, c).value;
            && Later(packet.sequence, t[c].bridge.snapshot.sequence)
            && t[c].bridge.snapshot.quadratureErrors == packet.quadratureErrors
            && t[c + 1].bridge.snapshot.latestDetent == packet.latestDetent
  {
    hide Update;
    assert Steps(t, run, c);
    BridgeStaysCoherent(t, run, c);
    BridgeRuns.DetentNeedsHealthyPredecessor(t[c].bridge, run[c].event);
    if BridgeRuns.GrantedBy(t[c].bridge, run[c].event) {
      BridgeRuns.GrantedPacketIsClean(t[c].bridge, run[c].event);
    }
  }
}
