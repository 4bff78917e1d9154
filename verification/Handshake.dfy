/** The decoder-reset handshake: controller and bridge, two processes joined by
    one request pin and one published snapshot, interleaved arbitrarily. */
module Handshake {
  import opened Words
  import opened Protocol
  import opened Pendant
  import opened Startup
  import opened Runtime
  import Bridge
  import BridgeRuns

  /** `said` is what the controller told the supervisor in the action just past. */
  datatype System = System(
    controller: Controller,
    bridge: Bridge.State,
    pin: u32,
    published: Bridge.Snapshot,
    said: seq<Call>)

  /** One atomic action: a servo cycle, a bridge event, or a publication. */
  datatype Action =
    | Servo(periodNs: u64, inputs: Inputs, answers: Answers)
    | Serve(event: BridgeRuns.Event)
    | Publication

  function SampleOf(p: Bridge.Snapshot): Sample {
    Sample(p.sequence, p.quadratureErrors, p.latestDetent, p.axis, p.multiplier, p.deadmanHeld,
           p.estopPressed, p.selectorValid)
  }

  /** A coherent read delivers the published snapshot; an incoherent one, anything. */
  function Seen(i: Inputs, p: Bridge.Snapshot): Inputs {
    if !i.coherent then i
    else i.(connected := p.connected, serialFault := p.serialFault, quadratureFault := p.quadratureFault,
            resetAck := p.faultResetAck, sample := SampleOf(p))
  }

  /** The bridge polls the request pin; it does not choose the request. */
  function Polled(e: BridgeRuns.Event, pin: u32): BridgeRuns.Event {
    if e.ObserveReset? then e.(request := pin) else e
  }

  function Next(s: System, a: Action): System {
    match a
    case Servo(periodNs, inputs, answers) =>
      var cycle := Update(s.controller, periodNs, Seen(inputs, s.published), answers);
      s.(controller := cycle.after, pin := cycle.outputs.resetRequest, said := cycle.calls)
    case Serve(event) => s.(bridge := BridgeRuns.Step(s.bridge, Polled(event, s.pin)), said := [])
    case Publication => s.(published := s.bridge.snapshot, said := [])
  }

  predicate Initial(s: System) {
    && s.controller == NEW_CONTROLLER
    && s.bridge == Bridge.NewState(s.bridge.timeoutNs)
    && s.pin == 0
    && s.published.faultResetAck == 0 && !s.published.connected
  }

  /** `t[k]` is the system before action `k` of the run, `t[k + 1]` after it. */
  predicate Steps(t: seq<System>, run: seq<Action>, k: nat)
    requires |t| == |run| + 1 && k < |run|
  {
    t[k + 1] == Next(t[k], run[k])
  }

  predicate Execution(t: seq<System>, run: seq<Action>) {
    && |t| == |run| + 1
    && Initial(t[0])
    && forall k | 0 <= k < |run| :: Steps(t, run, k)
  }

  // ------------------------------------------------------------ the controller

  predicate Awaits(s: System, r: u32) {
    s.controller.pendingReset.Some? && s.controller.pendingReset.value.request == r
  }

  predicate Issues(t: seq<System>, k: nat)
    requires k + 1 < |t|
  {
    t[k + 1].controller.resetGeneration != t[k].controller.resetGeneration
  }

  predicate IssuesRequest(t: seq<System>, k: nat, r: u32)
    requires k + 1 < |t|
  {
    Issues(t, k) && t[k + 1].controller.resetGeneration == r
  }

  /** The cycle in which the controller takes request `r` as acknowledged. */
  predicate Acknowledged(t: seq<System>, run: seq<Action>, k: nat, r: u32)
    requires |t| == |run| + 1 && k < |run|
  {
    && run[k].Servo?
    && var before := t[k];
    var i := Seen(run[k].inputs, before.published);
    && Awaits(before, r)
    && i.clearFaultRequest == before.controller.clearFaultAck
    && before.controller.Sampled(run[k].periodNs, i).Acknowledges(run[k].periodNs, i)
  }

  /** Servo time spent in actions i..j. */
  function Ticks(run: seq<Action>, i: nat, j: nat): nat
    requires i <= j <= |run|
  {
    if i == j then 0
    else Ticks(run, i, j - 1) + if run[j - 1].Servo? then run[j - 1].periodNs else 0
  }

  /** How many requests were issued before action `k`. */
  function Requests(t: seq<System>, k: nat): nat
    requires k < |t|
  {
    if k == 0 then 0 else Requests(t, k - 1) + if Issues(t, k - 1) then 1 else 0
  }

  lemma SettledPending(u: Controller, periodNs: u64, i: Inputs, a: Answers, retained: bool)
    ensures var t := AfterSampling(u, periodNs, i, a, retained).0;
            && t.resetGeneration == Resolved(u, periodNs, i, retained).resetGeneration
            && t.pendingReset == Resolved(u, periodNs, i, retained).pendingReset
  {
    hide Mesa.Update, Watchdog.Update;
  }

  /** What one cycle can do to the pending request: replace it by a new
      generation, drop it, or let it wait one more period. */
  lemma PendingStep(c: Controller, periodNs: u64, i: Inputs, a: Answers)
    ensures var t := Update(c, periodNs, i, a).after;
            if t.resetGeneration != c.resetGeneration then
              && t.resetGeneration == NextGeneration(c.resetGeneration)
              && t.pendingReset == Some(PendingReset(t.resetGeneration, 0))
            else
              t.pendingReset.Some? ==>
                && c.pendingReset.Some?
                && t.pendingReset.value.request == c.pendingReset.value.request
                && t.pendingReset.value.elapsedNs == c.pendingReset.value.elapsedNs + periodNs
                && t.pendingReset.value.elapsedNs < PENDANT_PACKET_TIMEOUT_NS
  {
    hide AfterSampling;
    assert NextGeneration(c.resetGeneration) != c.resetGeneration;
    if i.clearFaultRequest == c.clearFaultAck {
      SettledPending(c.Sampled(periodNs, i), periodNs, i, a, Rising(c, i) && a.faultRetained);
    }
  }

  /** Every pending request was issued, and has been waited for since. */
  lemma {:induction false} PendingWasIssued(t: seq<System>, run: seq<Action>, n: nat, r: u32) returns (a: nat)
    requires Execution(t, run) && n <= |run| && Awaits(t[n], r)
    ensures a < n && IssuesRequest(t, a, r)
    ensures forall k | a < k <= n :: Awaits(t[k], r)
    ensures t[n].controller.pendingReset.value.elapsedNs == Ticks(run, a + 1, n)
  {
    hide Update, BridgeRuns.Step;
    assert n > 0 && Steps(t, run, n - 1);
    var before := t[n - 1];
    match run[n - 1]
    case Servo(periodNs, inputs, answers) =>
      PendingStep(before.controller, periodNs, Seen(inputs, before.published), answers);
      if Issues(t, n - 1) {
        a := n - 1;
      } else {
        a := PendingWasIssued(t, run, n - 1, r);
      }
    case _ =>
      a := PendingWasIssued(t, run, n - 1, r);
  }

  /** Generations count the requests, as long as the 32-bit counter lasts. */
  lemma {:induction false} GenerationsCount(t: seq<System>, run: seq<Action>, n: nat)
    requires Execution(t, run) && n <= |run| && Requests(t, n) <= U32_MAX
    ensures t[n].controller.resetGeneration == Requests(t, n)
  {
    hide Update, BridgeRuns.Step;
    if n > 0 {
      assert Steps(t, run, n - 1);
      GenerationsCount(t, run, n - 1);
      var before := t[n - 1];
      if run[n - 1].Servo? {
        PendingStep(before.controller, run[n - 1].periodNs, Seen(run[n - 1].inputs, before.published),
                    run[n - 1].answers);
      }
    }
  }

  lemma {:induction false} RequestsGrow(t: seq<System>, m: nat, n: nat)
    requires m <= n < |t|
    ensures Requests(t, m) <= Requests(t, n)
  {
    if m < n {
      RequestsGrow(t, m, n - 1);
    }
  }

  lemma GenerationsGrow(t: seq<System>, run: seq<Action>, a: nat, b: nat)
    requires Execution(t, run) && a < b < |run| && Issues(t, b) && Requests(t, b + 1) <= U32_MAX
    ensures t[a + 1].controller.resetGeneration < t[b + 1].controller.resetGeneration
  {
    RequestsGrow(t, a + 1, b);
    GenerationsCount(t, run, a + 1);
    GenerationsCount(t, run, b + 1);
  }

  // ---------------------------------------------------- pin, bridge, snapshot

  /** What the bridge polls was put there by a cycle that left it pending. */
  lemma {:induction false} PinWasWritten(t: seq<System>, run: seq<Action>, n: nat) returns (q: nat)
    requires Execution(t, run) && n <= |run| && t[n].pin != 0
    ensures q <= n && Awaits(t[q], t[n].pin)
  {
    hide BridgeRuns.Step;
    assert n > 0 && Steps(t, run, n - 1);
    if run[n - 1].Servo? {
      q := n;
    } else {
      q := PinWasWritten(t, run, n - 1);
    }
  }

  /** The bridge takes up request `r`: it is new, and the link is at rest. */
  predicate Observed(t: seq<System>, run: seq<Action>, k: nat, r: u32)
    requires |t| == |run| + 1 && k < |run|
  {
    && run[k].Serve? && run[k].event.ObserveReset?
    && var before := t[k];
    && before.pin == r != 0
    && before.bridge.lastResetRequest != r
    && before.bridge.ResetEligible(run[k].event.nowNs)
    && t[k + 1].bridge.pendingReset ==
       Some(Bridge.PendingFaultReset(r, before.bridge.snapshot.quadratureErrors, run[k].event.nowNs))
  }

  lemma {:induction false} BridgePendingWasObserved(t: seq<System>, run: seq<Action>, n: nat) returns (b: nat)
    requires Execution(t, run) && n <= |run|
    requires t[n].bridge.pendingReset.Some?
    ensures b < n && Observed(t, run, b, t[n].bridge.pendingReset.value.request)
    ensures forall k | b < k <= n :: t[k].bridge.pendingReset == t[n].bridge.pendingReset
  {
    hide Update, BridgeRuns.Step;
    assert n > 0 && Steps(t, run, n - 1);
    var before := t[n - 1];
    if before.bridge.pendingReset == t[n].bridge.pendingReset {
      b := BridgePendingWasObserved(t, run, n - 1);
    } else {
      BridgePendingStep(before.bridge, Polled(run[n - 1].event, before.pin));
      b := n - 1;
    }
  }

  lemma BridgePendingStep(u: Bridge.State, e: BridgeRuns.Event)
    requires BridgeRuns.Step(u, e).pendingReset.Some? && BridgeRuns.Step(u, e).pendingReset != u.pendingReset
    ensures e.ObserveReset? && e.request != 0 && e.request != u.lastResetRequest && u.ResetEligible(e.nowNs)
    ensures BridgeRuns.Step(u, e).pendingReset ==
            Some(Bridge.PendingFaultReset(e.request, u.snapshot.quadratureErrors, e.nowNs))
  {
  }

  /** The bridge grants request `r` to the packet of action `k`. */
  predicate Granted(t: seq<System>, run: seq<Action>, k: nat, r: u32)
    requires |t| == |run| + 1 && k < |run|
  {
    && run[k].Serve?
    && BridgeRuns.GrantedBy(t[k].bridge, run[k].event)
    && t[k].bridge.pendingReset.value.request == r
  }

  lemma AckStep(u: Bridge.State, e: BridgeRuns.Event)
    requires BridgeRuns.Step(u, e).snapshot.faultResetAck !in {0, u.snapshot.faultResetAck}
    ensures BridgeRuns.GrantedBy(u, e) && !e.ObserveReset?
    ensures BridgeRuns.Step(u, e).snapshot.faultResetAck == u.pendingReset.value.request
  {
    if BridgeRuns.AcceptedPacket(u, e).Some? {
      BridgeRuns.AcceptingStep(u, e);
    }
  }

  lemma {:induction false} AckWasGranted(t: seq<System>, run: seq<Action>, n: nat) returns (c: nat)
    requires Execution(t, run) && n <= |run|
    requires t[n].bridge.snapshot.faultResetAck != 0
    ensures c < n && Granted(t, run, c, t[n].bridge.snapshot.faultResetAck)
  {
    hide Update, BridgeRuns.Step;
    assert n > 0 && Steps(t, run, n - 1);
    var before := t[n - 1];
    if before.bridge.snapshot.faultResetAck == t[n].bridge.snapshot.faultResetAck {
      c := AckWasGranted(t, run, n - 1);
    } else {
      AckStep(before.bridge, Polled(run[n - 1].event, before.pin));
      c := n - 1;
    }
  }

  /** What the controller reads is what the last publication wrote. */
  lemma {:induction false} SnapshotWasPublished(t: seq<System>, run: seq<Action>, n: nat) returns (p: nat)
    requires Execution(t, run) && n <= |run| && t[n].published != t[0].published
    ensures p < n && run[p].Publication? && t[p].bridge.snapshot == t[n].published
    ensures forall k | p < k < n :: !run[k].Publication?
  {
    assert n > 0 && Steps(t, run, n - 1);
    hide Update, BridgeRuns.Step;
    if run[n - 1].Publication? {
      p := n - 1;
    } else {
      p := SnapshotWasPublished(t, run, n - 1);
    }
  }

  lemma {:induction false} BridgeStaysCoherent(t: seq<System>, run: seq<Action>, n: nat)
    requires Execution(t, run) && n <= |run|
    ensures BridgeRuns.Coherent(t[n].bridge)
    ensures t[n].bridge.timeoutNs == t[0].bridge.timeoutNs
  {
    hide Update, BridgeRuns.Step, BridgeRuns.Coherent;
    if n > 0 {
      assert Steps(t, run, n - 1);
      BridgeStaysCoherent(t, run, n - 1);
      if run[n - 1].Serve? {
        var e := Polled(run[n - 1].event, t[n - 1].pin);
        BridgeRuns.CoherentStep(t[n - 1].bridge, e);
        TimeoutIsFixed(t[n - 1].bridge, e);
      }
    } else {
      NewBridgeIsCoherent(t[0].bridge.timeoutNs);
    }
  }

  lemma TimeoutIsFixed(u: Bridge.State, e: BridgeRuns.Event)
    ensures BridgeRuns.Step(u, e).timeoutNs == u.timeoutNs
  {
  }

  lemma NewBridgeIsCoherent(timeoutNs: u64)
    ensures BridgeRuns.Coherent(Bridge.NewState(timeoutNs))
  {
  }

  // --------------------------------------------------------------- the theorem

  /** The packet that answered: nothing about the decoder moved since the bridge
      took the request up, and nothing of the packet is acted upon. */
  predicate CleanAnswer(t: seq<System>, run: seq<Action>, b: nat, c: nat)
    requires |t| == |run| + 1 && b < c < |run|
    requires run[b].Serve? && run[b].event.ObserveReset?
    requires run[c].Serve? && BridgeRuns.AcceptedPacket(t[c].bridge, run[c].event).Some?
  {
    var packet := BridgeRuns.AcceptedPacket(t[c].bridge, run[c].event).value;
    var after := t[c + 1].bridge.snapshot;
    && !packet.estopPressed && !packet.deadmanHeld
    && packet.quadratureErrors == t[b].bridge.snapshot.quadratureErrors
    && SaturatingSub(BridgeRuns.ArrivalNs(run[c].event), run[b].event.nowNs) <= t[0].bridge.timeoutNs
    && after.currentFault.None? && after.latestDetent == 0
    && (forall k | b < k <= c ::
          var u := t[k].bridge.snapshot;
          u.connected && !u.estopPressed && !u.deadmanHeld && u.quadratureErrors == packet.quadratureErrors)
  }

  /** An acknowledgement is never stale: the controller believes request `r` only
      after it issued r, the bridge took r up, a clean packet earned r, and the
      snapshot saying so was published, in this order, all while the controller
      still waited for r and within its 100 ms of servo time. */
  lemma AcknowledgementIsGenuine(t: seq<System>, run: seq<Action>, d: nat, r: u32)
    returns (a: nat, b: nat, c: nat, p: nat)
    requires Execution(t, run) && d < |run|
    requires Requests(t, d) <= U32_MAX
    requires Acknowledged(t, run, d, r)
    ensures a < b < c < p < d
    ensures IssuesRequest(t, a, r)
    ensures forall k | a < k <= d :: Awaits(t[k], r)
    ensures Ticks(run, a + 1, d + 1) < PENDANT_PACKET_TIMEOUT_NS
    ensures Observed(t, run, b, r)
    ensures Granted(t, run, c, r)
    ensures CleanAnswer(t, run, b, c)
    ensures run[p].Publication? && t[p].bridge.snapshot == t[d].published
    ensures t[d].published.faultResetAck == r
    ensures t[d].published.currentFault.None?
  {
    a := PendingWasIssued(t, run, d, r);
    GenerationIsPositive(t, run, a);
    p := SnapshotWasPublished(t, run, d);
    c := AckWasGranted(t, run, p);
    b := BridgePendingWasObserved(t, run, c);
    var q := PinWasWritten(t, run, b);
    var a' := PendingWasIssued(t, run, q, r);
    RequestsGrow(t, a + 1, d);
    RequestsGrow(t, a' + 1, d);
    if a < a' {
      GenerationsGrow(t, run, a, a');
    } else if a' < a {
      GenerationsGrow(t, run, a', a);
    }
    AnswerIsClean(t, run, b, c, r);
    BridgeStaysCoherent(t, run, p);
  }

  lemma GenerationIsPositive(t: seq<System>, run: seq<Action>, k: nat)
    requires Execution(t, run) && k < |run| && Issues(t, k)
    ensures t[k + 1].controller.resetGeneration != 0
  {
    hide Update, BridgeRuns.Step;
    assert Steps(t, run, k);
    var before := t[k];
    PendingStep(before.controller, run[k].periodNs, Seen(run[k].inputs, before.published), run[k].answers);
  }

  lemma AnswerIsClean(t: seq<System>, run: seq<Action>, b: nat, c: nat, r: u32)
    requires Execution(t, run) && b < c < |run|
    requires Observed(t, run, b, r) && Granted(t, run, c, r)
    requires forall k | b < k <= c :: t[k].bridge.pendingReset == t[c].bridge.pendingReset
    ensures CleanAnswer(t, run, b, c)
  {
    hide Update;
    assert Steps(t, run, b) && Steps(t, run, c);
    BridgeStaysCoherent(t, run, c);
    BridgeRuns.GrantedPacketIsClean(t[c].bridge, run[c].event);
    assert t[b + 1].bridge.pendingReset == t[c].bridge.pendingReset;
    forall k | b < k <= c
      ensures var u := t[k].bridge.snapshot;
              u.connected && !u.estopPressed && !u.deadmanHeld
              && u.quadratureErrors == t[b].bridge.snapshot.quadratureErrors
    {
      BridgeStaysCoherent(t, run, k);
    }
  }

  /** Once the controller has stopped waiting for a request, whether it was
      acknowledged, expired, cancelled or replaced, it never waits for it again. */
  lemma ClosedRequestStaysClosed(t: seq<System>, run: seq<Action>, k: nat, m: nat, n: nat, r: u32)
    requires Execution(t, run) && k <= m <= n <= |run|
    requires Requests(t, n) <= U32_MAX
    requires Awaits(t[k], r) && !Awaits(t[m], r)
    ensures !Awaits(t[n], r)
  {
    if Awaits(t[n], r) {
      var a := PendingWasIssued(t, run, k, r);
      var a' := PendingWasIssued(t, run, n, r);
      assert a < k <= m <= a';
      RequestsGrow(t, a' + 1, n);
      GenerationsGrow(t, run, a, a');
    }
  }

  lemma AcknowledgedAtMostOnce(t: seq<System>, run: seq<Action>, d: nat, e: nat, r: u32)
    requires Execution(t, run) && d < e < |run|
    requires Requests(t, e) <= U32_MAX
    requires Acknowledged(t, run, d, r)
    ensures !Acknowledged(t, run, e, r)
  {
    RequestsGrow(t, d + 1, e);
    AcknowledgementCloses(t, run, d, r);
    ClosedRequestStaysClosed(t, run, d, d + 1, e, r);
  }

  lemma AcknowledgementCloses(t: seq<System>, run: seq<Action>, d: nat, r: u32)
    requires Execution(t, run) && d < |run| && Acknowledged(t, run, d, r) && Requests(t, d + 1) <= U32_MAX
    ensures !Awaits(t[d + 1], r)
  {
    hide Update;
    assert Steps(t, run, d);
    var before := t[d];
    var i := Seen(run[d].inputs, before.published);
    AcknowledgingStep(before.controller, run[d].periodNs, i, run[d].answers);
    PendingStep(before.controller, run[d].periodNs, i, run[d].answers);
    var a := PendingWasIssued(t, run, d, r);
    if Issues(t, d) {
      GenerationsGrow(t, run, a, d);
    }
  }

  lemma AcknowledgingStep(c: Controller, periodNs: u64, i: Inputs, a: Answers)
    requires i.clearFaultRequest == c.clearFaultAck && c.Sampled(periodNs, i).Acknowledges(periodNs, i)
    ensures var t := Update(c, periodNs, i, a).after;
            t.resetGeneration != c.resetGeneration || t.pendingReset.None?
  {
    hide AfterSampling;
    SettledPending(c.Sampled(periodNs, i), periodNs, i, a, Rising(c, i) && a.faultRetained);
  }

  // -------------------------------------------------------- the other direction

  /** The bridge polls request `r` for the first time, with the link at rest. */
  predicate PollsEligibly(t: seq<System>, run: seq<Action>, k: nat, r: u32)
    requires |t| == |run| + 1 && k < |run|
  {
    && run[k].Serve? && run[k].event.ObserveReset?
    && t[k].pin == r != 0
    && t[k].bridge.lastResetRequest != r
    && t[k].bridge.ResetEligible(run[k].event.nowNs)
  }

  /** What the bridge does between packets: it polls, and finds the link in time. */
  predicate Idle(u: Bridge.State, e: BridgeRuns.Event) {
    e.ObserveReset? || (e.TimeoutCheck? && !u.TimedOut(e.nowNs))
  }

  predicate IdleBridge(t: seq<System>, run: seq<Action>, i: nat, j: nat)
    requires |t| == |run| + 1 && j <= |run|
  {
    forall m | i <= m < j && run[m].Serve? :: Idle(t[m].bridge, run[m].event)
  }

  /** Action `c` brings the bridge a packet that may answer the poll of action `k`. */
  predicate AnswersCleanly(t: seq<System>, run: seq<Action>, k: nat, c: nat)
    requires |t| == |run| + 1 && k < |run| && c < |run|
    requires run[k].Serve? && run[k].event.ObserveReset?
    requires run[c].Serve? && BridgeRuns.AcceptedPacket(t[c].bridge, run[c].event).Some?
  {
    var packet := BridgeRuns.AcceptedPacket(t[c].bridge, run[c].event).value;
    && !packet.estopPressed && !packet.deadmanHeld
    && packet.quadratureErrors == t[k].bridge.snapshot.quadratureErrors
    && SaturatingSub(BridgeRuns.ArrivalNs(run[c].event), run[k].event.nowNs) <= t[k].bridge.timeoutNs
  }

  /** While the controller waits for `r`, nothing else stands on the pin. */
  lemma {:induction false} PinHolds(t: seq<System>, run: seq<Action>, k: nat, m: nat, r: u32)
    requires Execution(t, run) && k <= m <= |run| && t[k].pin == r
    requires forall j | k <= j <= m :: Awaits(t[j], r)
    ensures t[m].pin == r
  {
    if k < m {
      PinHolds(t, run, k, m - 1, r);
      assert Steps(t, run, m - 1);
      hide BridgeRuns.Step, AfterSampling;
    }
  }

  lemma {:induction false} IdleBridgeHolds(t: seq<System>, run: seq<Action>, i: nat, j: nat, r: u32)
    requires Execution(t, run) && i <= j <= |run| && IdleBridge(t, run, i, j)
    requires t[i].bridge.lastResetRequest == r != 0
    requires forall m | i <= m < j :: t[m].pin == r
    ensures t[j].bridge == t[i].bridge
  {
    if i < j {
      IdleBridgeHolds(t, run, i, j - 1, r);
      assert Steps(t, run, j - 1);
      hide Update;
    }
  }

  lemma {:induction false} PublishedHolds(t: seq<System>, run: seq<Action>, i: nat, j: nat)
    requires Execution(t, run) && i <= j <= |run|
    requires forall m | i <= m < j :: !run[m].Publication?
    ensures t[j].published == t[i].published
  {
    if i < j {
      PublishedHolds(t, run, i, j - 1);
      assert Steps(t, run, j - 1);
      hide Update, BridgeRuns.Step;
    }
  }

  /** A request polled at `k` and still waited for at `d` was waited for throughout. */
  lemma WaitedThroughout(t: seq<System>, run: seq<Action>, k: nat, d: nat, r: u32)
    requires Execution(t, run) && k <= d < |run| && Requests(t, d) <= U32_MAX
    requires t[k].pin == r != 0 && Awaits(t[d], r)
    ensures forall m | k <= m <= d :: Awaits(t[m], r) && t[m].pin == r
  {
    var q := PinWasWritten(t, run, k);
    var a := PendingWasIssued(t, run, d, r);
    var b := PendingWasIssued(t, run, q, r);
    RequestsGrow(t, a + 1, d);
    RequestsGrow(t, b + 1, d);
    if a < b {
      GenerationsGrow(t, run, a, b);
    } else if b < a {
      GenerationsGrow(t, run, b, a);
    }
    forall m | k <= m <= d ensures Awaits(t[m], r) && t[m].pin == r {
      PinHolds(t, run, k, m, r);
    }
  }

  /** The first packet after an eligible poll decides: the request is granted exactly
      when that packet answers cleanly. */
  lemma NextPacketDecides(t: seq<System>, run: seq<Action>, k: nat, c: nat, r: u32)
    requires Execution(t, run) && k < c < |run| && PollsEligibly(t, run, k, r)
    requires forall m | k <= m <= c :: t[m].pin == r
    requires IdleBridge(t, run, k + 1, c)
    requires run[c].Serve? && BridgeRuns.AcceptedPacket(t[c].bridge, run[c].event).Some?
    ensures Observed(t, run, k, r)
    ensures Granted(t, run, c, r) <==> AnswersCleanly(t, run, k, c)
    ensures Granted(t, run, c, r) ==>
              Shows(t[c + 1].bridge, BridgeRuns.AcceptedPacket(t[c].bridge, run[c].event).value, r)
  {
    hide Update;
    BridgeStaysCoherent(t, run, k);
    assert Steps(t, run, k) && Steps(t, run, c);
    IdleBridgeHolds(t, run, k + 1, c, r);
    ReadAnswer(t[k].bridge, run[k].event.nowNs, run[c].event, r);
  }

  /** The snapshot of a granting packet. */
  predicate Shows(u: Bridge.State, packet: Packet, r: u32) {
    && u.lastResetRequest == r == u.snapshot.faultResetAck
    && u.snapshot.connected && !u.snapshot.serialFault && !u.snapshot.quadratureFault && !u.snapshot.deadmanHeld
    && u.snapshot.sequence == packet.sequence
  }

  lemma ReadAnswer(u: Bridge.State, nowNs: u64, e: BridgeRuns.Event, r: u32)
    requires BridgeRuns.Coherent(u) && r !in {0, u.lastResetRequest} && u.ResetEligible(nowNs)
    requires BridgeRuns.AcceptedPacket(u.ObserveFaultReset(r, nowNs), e).Some?
    ensures var v := u.ObserveFaultReset(r, nowNs);
            var packet := BridgeRuns.AcceptedPacket(v, e).value;
            && (BridgeRuns.GrantedBy(v, e) <==>
                  && !packet.estopPressed && !packet.deadmanHeld
                  && packet.quadratureErrors == u.snapshot.quadratureErrors
                  && SaturatingSub(BridgeRuns.ArrivalNs(e), nowNs) <= u.timeoutNs)
            && (BridgeRuns.GrantedBy(v, e) ==> Shows(BridgeRuns.Step(v, e), packet, r))
  {
    hide BridgeRuns.Step;
    BridgeRuns.AcceptingStep(u.ObserveFaultReset(r, nowNs), e);
  }

  /** The other direction, under every interleaving: a request polled at rest (k),
      answered by the next packet (c), published (p) and read in time (d), is
      acknowledged, whatever servo cycles, polls, timeout checks and publications
      fall in between. */
  lemma CleanResetSucceeds(t: seq<System>, run: seq<Action>, k: nat, c: nat, p: nat, d: nat, r: u32)
    requires Execution(t, run) && k < c < p < d < |run| && Requests(t, d) <= U32_MAX
    requires PollsEligibly(t, run, k, r)
    requires IdleBridge(t, run, k + 1, c) && IdleBridge(t, run, c + 1, p)
    requires run[c].Serve? && BridgeRuns.AcceptedPacket(t[c].bridge, run[c].event).Some?
    requires AnswersCleanly(t, run, k, c)
    requires run[p].Publication? && forall m | p < m < d :: !run[m].Publication?
    requires run[d].Servo? && run[d].inputs.coherent && Awaits(t[d], r)
    requires run[d].inputs.clearFaultRequest == t[d].controller.clearFaultAck
    requires t[d].controller.pendingReset.value.elapsedNs + run[d].periodNs < PENDANT_PACKET_TIMEOUT_NS
    requires var packet := BridgeRuns.AcceptedPacket(t[c].bridge, run[c].event).value;
             t[d].controller.pendantFreshness.Update(packet.sequence, run[d].periodNs)
             .IsFresh(PENDANT_PACKET_TIMEOUT_NS)
    ensures Observed(t, run, k, r) && Granted(t, run, c, r)
    ensures Acknowledged(t, run, d, r)
  {
    hide Update, BridgeRuns.Step, BridgeRuns.AcceptedPacket;
    WaitedThroughout(t, run, k, d, r);
    NextPacketDecides(t, run, k, c, r);
    IdleBridgeHolds(t, run, c + 1, p, r);
    assert Steps(t, run, p);
    PublishedHolds(t, run, p + 1, d);
  }
}
