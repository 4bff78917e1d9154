/** The pendant interpreter: which packets become jog increments.

    The interpreter carries an armed selection from packet to packet. The main
    result is that this memory is worth exactly two packets: every decision is a
    function of the last three samples processed since a reset. */
module Pendant {
  import opened Words
  import opened Protocol

  datatype Axis = AxisX | AxisY | AxisZ

  datatype Multiplier = Times1 | Times10 | Times100

  function AxisIndex(a: Axis): nat {
    match a case AxisX => 0 case AxisY => 1 case AxisZ => 2
  }

  function Motor(a: Axis): nat {
    [1, 0, 2][AxisIndex(a)]
  }

  function ClockwiseSign(a: Axis): int {
    [-1, 1, 1][AxisIndex(a)]
  }

  // The reviewed values of config/machine-pulses.conf.
  const PULSES_PER_MM := 1000

  function IncrementPulses(m: Multiplier): int {
    match m case Times1 => 10 case Times10 => 100 case Times100 => 1_000
  }

  function TargetPulsesPerSecond(m: Multiplier): int {
    match m case Times1 => 5_000 case Times10 => 75_000 case Times100 => 300_000
  }

  function TargetRateMmPerMinute(m: Multiplier): int {
    TargetPulsesPerSecond(m) * 60 / PULSES_PER_MM
  }

  datatype Selection = Selection(axis: Axis, multiplier: Multiplier)

  datatype JogIntent = JogIntent(axis: Axis, motor: nat, deltaPulses: int, targetRateMmPerMinute: int)

  function FromDetent(s: Selection, detent: int): Option<JogIntent> {
    if detent != -1 && detent != 1 then None
    else Some(JogIntent(s.axis, Motor(s.axis),
                        detent * ClockwiseSign(s.axis) * IncrementPulses(s.multiplier),
                        TargetRateMmPerMinute(s.multiplier)))
  }

  function MotionAxis(a: AxisSelector): Option<Axis> {
    match a case X => Some(AxisX) case Y => Some(AxisY) case Z => Some(AxisZ) case _ => None
  }

  function MotionMultiplier(m: MultiplierSelector): Option<Multiplier> {
    match m case X1 => Some(Times1) case X10 => Some(Times10) case X100 => Some(Times100) case _ => None
  }

  datatype Sample = Sample(
    sequence: u32,
    quadratureErrors: u32,
    latestDetent: i32,
    axis: AxisSelector,
    multiplier: MultiplierSelector,
    deadmanHeld: bool,
    estopPressed: bool,
    selectorValid: bool)

  datatype StopReason =
    | InitialBaseline
    | SequenceRestartedOrRepeated
    | EstopPressed
    | InvalidSelector
    | UnsupportedAxis
    | UnsupportedMultiplier
    | DeadmanReleased
    | SelectionBaseline

  datatype InterpreterFault = QuadratureErrorChanged | DetentOutOfRange

  datatype Decision =
    | Stop(reason: StopReason)
    | NoDetent
    | Jog(intent: JogIntent)
    | Fault(fault: InterpreterFault)

  // ------------------------------------------- specification by three samples

  /** What a packet says on its own, given the one before: a refusal, or the
      selection it holds enabled. */
  function Gate(previous: Option<Sample>, sample: Sample): Result<Selection, Decision> {
    if previous.None? then Err(Stop(InitialBaseline))
    else if !Later(sample.sequence, previous.value.sequence) then Err(Stop(SequenceRestartedOrRepeated))
    else if previous.value.quadratureErrors != sample.quadratureErrors then Err(Fault(QuadratureErrorChanged))
    else if !(-1 <= sample.latestDetent <= 1) then Err(Fault(DetentOutOfRange))
    else if sample.estopPressed then Err(Stop(EstopPressed))
    else if !sample.selectorValid then Err(Stop(InvalidSelector))
    else if MotionAxis(sample.axis).None? then Err(Stop(UnsupportedAxis))
    else if MotionMultiplier(sample.multiplier).None? then Err(Stop(UnsupportedMultiplier))
    else if !sample.deadmanHeld then Err(Stop(DeadmanReleased))
    else Ok(Selection(MotionAxis(sample.axis).value, MotionMultiplier(sample.multiplier).value))
  }

  /** The decision on the newest of at most three consecutive samples. */
  function WindowDecision(oldest: Option<Sample>, previous: Option<Sample>, sample: Sample): Decision {
    var gate := Gate(previous, sample);
    if gate.Err? then gate.error
    else if Gate(oldest, previous.value) != gate then Stop(SelectionBaseline)
    else if sample.latestDetent == 0 then NoDetent
    else Jog(FromDetent(gate.value, sample.latestDetent).value)
  }

  // ------------------------------------------------------------ the automaton

  datatype Memory = Memory(
    previousSequence: Option<u32>,
    previousQuadratureErrors: Option<u32>,
    armedSelection: Option<Selection>)

  const RESET := Memory(None, None, None)

  /** One `process` call on the interpreter's three fields. */
  function Process(m: Memory, sample: Sample): (Memory, Decision) {
    var seen := Memory(Some(sample.sequence), Some(sample.quadratureErrors), None);
    if m.previousSequence.None? then (seen, Stop(InitialBaseline))
    else if !Later(sample.sequence, m.previousSequence.value) then (seen, Stop(SequenceRestartedOrRepeated))
    else if m.previousQuadratureErrors != Some(sample.quadratureErrors) then
      (seen, Fault(QuadratureErrorChanged))
    else if !(-1 <= sample.latestDetent <= 1) then (seen, Fault(DetentOutOfRange))
    else if sample.estopPressed then (seen, Stop(EstopPressed))
    else if !sample.selectorValid then (seen, Stop(InvalidSelector))
    else if MotionAxis(sample.axis).None? then (seen, Stop(UnsupportedAxis))
    else if MotionMultiplier(sample.multiplier).None? then (seen, Stop(UnsupportedMultiplier))
    else if !sample.deadmanHeld then (seen, Stop(DeadmanReleased))
    else
      var selection := Selection(MotionAxis(sample.axis).value, MotionMultiplier(sample.multiplier).value);
      var armed := seen.(armedSelection := Some(selection));
      if m.armedSelection != Some(selection) then (armed, Stop(SelectionBaseline))
      else if sample.latestDetent == 0 then (armed, NoDetent)
      else
        match FromDetent(selection, sample.latestDetent)
        case Some(intent) => (armed, Jog(intent))
        case None => (armed, Fault(DetentOutOfRange))
  }

  class PendantInterpreter {
    var previousSequence: Option<u32>
    var previousQuadratureErrors: Option<u32>
    var armedSelection: Option<Selection>

    ghost function Abs(): Memory
      reads this
    {
      Memory(previousSequence, previousQuadratureErrors, armedSelection)
    }

    constructor ()
      ensures Abs() == RESET
    {
      previousSequence := None;
      previousQuadratureErrors := None;
      armedSelection := None;
    }

    method Reset()
      modifies this
      ensures Abs() == RESET
    {
      previousSequence := None;
      previousQuadratureErrors := None;
      armedSelection := None;
    }

    method Stopped(reason: StopReason) returns (d: Decision)
      modifies this
      ensures Abs() == old(Abs()).(armedSelection := None) && d == Stop(reason)
    {
      armedSelection := None;
      d := Stop(reason);
    }

    method ProcessSample(sample: Sample) returns (d: Decision)
      modifies this
      ensures (Abs(), d) == Process(old(Abs()), sample)
    {
      var wasSequence := previousSequence;
      var wasQuadratureErrors := previousQuadratureErrors;
      previousSequence := Some(sample.sequence);
      previousQuadratureErrors := Some(sample.quadratureErrors);

      if wasSequence.None? {
        d := Stopped(InitialBaseline);
        return;
      }
      var sequenceDelta := WrappingSub(sample.sequence, wasSequence.value);
      if sequenceDelta == 0 || sequenceDelta > I32_MAX {
        d := Stopped(SequenceRestartedOrRepeated);
        return;
      }
      if wasQuadratureErrors != Some(sample.quadratureErrors) {
        armedSelection := None;
        return Fault(QuadratureErrorChanged);
      }
      if sample.latestDetent < -1 || sample.latestDetent > 1 {
        armedSelection := None;
        return Fault(DetentOutOfRange);
      }
      if sample.estopPressed {
        d := Stopped(EstopPressed);
        return;
      }
      if !sample.selectorValid {
        d := Stopped(InvalidSelector);
        return;
      }
      var axis := MotionAxis(sample.axis);
      if axis.None? {
        d := Stopped(UnsupportedAxis);
        return;
      }
      var multiplier := MotionMultiplier(sample.multiplier);
      if multiplier.None? {
        d := Stopped(UnsupportedMultiplier);
        return;
      }
      if !sample.deadmanHeld {
        d := Stopped(DeadmanReleased);
        return;
      }
      var selection := Selection(axis.value, multiplier.value);
      if armedSelection != Some(selection) {
        armedSelection := Some(selection);
        return Stop(SelectionBaseline);
      }
      if sample.latestDetent == 0 {
        return NoDetent;
      }
      var intent := FromDetent(selection, sample.latestDetent);
      return if intent.Some? then Jog(intent.value) else Fault(DetentOutOfRange);
    }
  }

  // ------------------------------------------------------------------ history

  /** The interpreter's fields after a stream of samples since its last reset. */
  function After(samples: seq<Sample>): Memory {
    if samples == [] then RESET
    else Process(After(samples[..|samples| - 1]), samples[|samples| - 1]).0
  }

  function Before(samples: seq<Sample>, back: nat): Option<Sample> {
    if back < |samples| then Some(samples[|samples| - 1 - back]) else None
  }

  function OfGate(gate: Result<Selection, Decision>): Option<Selection> {
    match gate case Ok(s) => Some(s) case Err(_) => None
  }

  lemma {:induction false} MemoryIsTheLastTwoSamples(samples: seq<Sample>)
    requires samples != []
    ensures var last := samples[|samples| - 1];
            After(samples) == Memory(Some(last.sequence), Some(last.quadratureErrors),
                                     OfGate(Gate(Before(samples, 1), last)))
  {
    var front := samples[..|samples| - 1];
    if front != [] {
      MemoryIsTheLastTwoSamples(front);
      assert Before(samples, 1) == Some(front[|front| - 1]);
    }
  }

  /** Every decision is determined by the last three samples since a reset. */
  lemma EveryDecisionIsAWindow(samples: seq<Sample>, sample: Sample)
    ensures Process(After(samples), sample).1 ==
            WindowDecision(Before(samples, 1), Before(samples, 0), sample)
  {
    if samples != [] {
      MemoryIsTheLastTwoSamples(samples);
    }
  }

  /** Exactly when a packet jogs, and by how much. */
  lemma JogExactly(samples: seq<Sample>, sample: Sample, intent: JogIntent)
    ensures Process(After(samples), sample).1 == Jog(intent) <==>
            && |samples| >= 2
            && var oldest, previous := samples[|samples| - 2], samples[|samples| - 1];
            && Later(previous.sequence, oldest.sequence) && Later(sample.sequence, previous.sequence)
            && oldest.quadratureErrors == previous.quadratureErrors == sample.quadratureErrors
            && previous.axis == sample.axis && previous.multiplier == sample.multiplier
            && MotionAxis(sample.axis) == Some(intent.axis)
            && MotionMultiplier(sample.multiplier).Some?
            && !previous.estopPressed && !sample.estopPressed
            && previous.deadmanHeld && sample.deadmanHeld
            && previous.selectorValid && sample.selectorValid
            && -1 <= previous.latestDetent <= 1
            && sample.latestDetent in {-1, 1}
            && intent.motor == Motor(intent.axis)
            && intent.deltaPulses == sample.latestDetent * ClockwiseSign(intent.axis)
                                     * IncrementPulses(MotionMultiplier(sample.multiplier).value)
            && intent.targetRateMmPerMinute == TargetRateMmPerMinute(MotionMultiplier(sample.multiplier).value)
  {
    EveryDecisionIsAWindow(samples, sample);
  }

  /** What one detent is worth: a clockwise step of the X, Y or Z selector drives motor
      1, 0 or 2, X in the negative direction; x1, x10 and x100 are 0.01, 0.1 and 1 mm, at
      300, 4500 and 18000 mm per minute. */
  predicate IsStep(sample: Sample, intent: JogIntent) {
    && (match sample.axis
        case X => intent.axis == AxisX && intent.motor == 1
        case Y => intent.axis == AxisY && intent.motor == 0
        case Z => intent.axis == AxisZ && intent.motor == 2
        case _ => false)
    && sample.latestDetent in {-1, 1}
    && var clockwise := if sample.axis.X? then -sample.latestDetent else sample.latestDetent;
    match sample.multiplier
    case X1 => intent.deltaPulses == 10 * clockwise && intent.targetRateMmPerMinute == 300
    case X10 => intent.deltaPulses == 100 * clockwise && intent.targetRateMmPerMinute == 4500
    case X100 => intent.deltaPulses == 1000 * clockwise && intent.targetRateMmPerMinute == 18000
    case _ => false
  }

  lemma EveryJogIsAStep(m: Memory, sample: Sample)
    ensures match Process(m, sample).1 case Jog(intent) => IsStep(sample, intent) case _ => true
  {
  }
}
