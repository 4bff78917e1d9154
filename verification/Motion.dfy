/** The realtime jog-count channel, and the LinuxCNC consumer behind it.

    The source's two count arrays, three axis and three joint wheels, are the six
    lanes of one sequence here: lanes 0..2 are the axis wheels, 3..5 the joints.
    Rust's f64 is `real`; a value that is not finite is a case of `Double`. */
module Motion {
  import opened Words
  import opened Pendant

  const LANES := 6
  const NANOSECONDS := 1_000_000_000.0

  datatype MotionPhase = Idle | JogCount | Rebase | Stopping | StoppingImmediately

  datatype JogPath = AxisTeleop | JointFree

  datatype Double = NotFinite | Finite(value: real)

  datatype JogCommand =
    JogCommand(axis: Axis, path: JogPath, signedDeltaPulses: Double, targetRateMmPerMinute: i32)

  datatype CommandEvent =
    | JogIncrement(command: JogCommand)
    | JogStop
    | JogStopImmediate

  datatype MotionError =
    | ChannelRebasing
    | InvalidPulsesPerMillimeter
    | InvalidServoPeriod
    | InvalidTargetRate
    | NonFiniteDistance
    | ZeroDistance
    | CountRangeExceeded

  datatype Increment = Increment(
    lane: nat, direction: int, remaining: real, pulsesPerMm: real, pulsesPerSecond: real)
  {
    function Budget(periodNs: u64): real {
      pulsesPerSecond * periodNs as real / NANOSECONDS
    }
  }

  function Lane(path: JogPath, axis: Axis): (l: nat)
    ensures l < LANES
  {
    (if path.AxisTeleop? then 0 else 3) + AxisIndex(axis)
  }

  function AbsReal(x: real): real {
    if x < 0.0 then -x else x
  }

  predicate AnyNonzero(counts: seq<i32>) {
    exists i | 0 <= i < |counts| :: counts[i] != 0
  }

  const NO_COUNTS: seq<i32> := [0, 0, 0, 0, 0, 0]
  const NO_SCALES: seq<real> := [0.0, 0.0, 0.0, 0.0, 0.0, 0.0]
  const NO_ENABLES: seq<bool> := [false, false, false, false, false, false]

  // ------------------------------------------- specification of one operation

  datatype Channel = Channel(
    counts: seq<i32>,
    scales: seq<real>,
    enables: seq<bool>,
    jogStop: bool,
    jogStopImmediate: bool,
    phase: MotionPhase,
    active: Option<Increment>,
    rebasePending: bool)
  {
    /** Six lanes; what is scheduled has a distance left and can be published. */
    predicate Valid() {
      && |counts| == LANES && |scales| == LANES && |enables| == LANES
      && (active.Some? ==>
            && active.value.lane < LANES
            && active.value.direction in {-1, 1}
            && active.value.remaining > 0.0
            && active.value.pulsesPerMm > 0.0
            && active.value.pulsesPerSecond > 0.0)
    }

    predicate Ready() {
      active.None? && !rebasePending && phase.Idle?
    }

    function ClearTransient(): Channel {
      this.(scales := NO_SCALES, enables := NO_ENABLES, jogStop := false, jogStopImmediate := false, phase := Idle)
    }

    function Cancel(): Channel {
      this.(active := None, rebasePending := rebasePending || AnyNonzero(counts),
            enables := NO_ENABLES, scales := NO_SCALES)
    }

    function ForceStopImmediate(): Channel {
      Cancel().(jogStop := true, jogStopImmediate := true, phase := StoppingImmediately)
    }

    /** The pulses that one cycle of this period may issue. */
    function Chunk(periodNs: u64): real
      requires active.Some?
    {
      var budget := active.value.Budget(periodNs);
      if active.value.remaining <= budget then active.value.remaining else budget
    }

    function NextCount(): int
      requires Valid() && active.Some?
    {
      counts[active.value.lane] + active.value.direction
    }

    predicate CountOverflows()
      requires Valid() && active.Some?
    {
      !(-0x8000_0000 <= NextCount() < 0x8000_0000)
    }

    function ChunkError(periodNs: u64): Option<MotionError>
      requires Valid() && active.Some?
    {
      if periodNs == 0 then Some(InvalidServoPeriod)
      else if active.value.Budget(periodNs) <= 0.0 then Some(InvalidTargetRate)
      else if CountOverflows() then Some(CountRangeExceeded)
      else None
    }

    function PublishNextChunk(periodNs: u64): Channel
      requires Valid() && active.Some?
    {
      if ChunkError(periodNs).Some? then this
      else
        var chunk := Chunk(periodNs);
        var a := active.value;
        this.(counts := counts[a.lane := NextCount()],
              scales := scales[a.lane := chunk / a.pulsesPerMm],
              enables := enables[a.lane := true],
              phase := JogCount,
              active := if chunk >= a.remaining then None else Some(a.(remaining := a.remaining - chunk)),
              rebasePending := rebasePending || chunk >= a.remaining)
    }

    function AdvanceError(periodNs: u64): Option<MotionError>
      requires Valid()
    {
      if active.Some? then ChunkError(periodNs) else None
    }

    function Advance(periodNs: u64): Channel
      requires Valid()
    {
      var cleared := ClearTransient();
      if active.Some? then cleared.PublishNextChunk(periodNs)
      else if rebasePending then cleared.(counts := NO_COUNTS, phase := Rebase, rebasePending := false)
      else cleared
    }

    function IncrementError(command: JogCommand, pulsesPerMm: i32, periodNs: u64): Option<MotionError> {
      if !Ready() then Some(ChannelRebasing)
      else if pulsesPerMm <= 0 then Some(InvalidPulsesPerMillimeter)
      else if periodNs == 0 then Some(InvalidServoPeriod)
      else if command.targetRateMmPerMinute <= 0 then Some(InvalidTargetRate)
      else if command.signedDeltaPulses.NotFinite? then Some(NonFiniteDistance)
      else if command.signedDeltaPulses.value == 0.0 then Some(ZeroDistance)
      else
        var perCycle := Schedule(command, pulsesPerMm).Budget(periodNs);
        if perCycle <= 0.0 then Some(InvalidTargetRate)
        else if AbsReal(command.signedDeltaPulses.value) / perCycle > I32_MAX as real then Some(CountRangeExceeded)
        else None
    }

    function AcceptIncrement(command: JogCommand, pulsesPerMm: i32, periodNs: u64): Channel
      requires Valid()
    {
      if IncrementError(command, pulsesPerMm, periodNs).Some? then this
      else this.(active := Some(Schedule(command, pulsesPerMm))).PublishNextChunk(periodNs)
    }

    function AcceptError(event: CommandEvent, pulsesPerMm: i32, periodNs: u64): Option<MotionError>
      requires Valid()
    {
      match event
      case JogIncrement(command) =>
        var error := IncrementError(command, pulsesPerMm, periodNs);
        if error.Some? then error
        else this.(active := Some(Schedule(command, pulsesPerMm))).ChunkError(periodNs)
      case _ => None
    }

    function Accept(event: CommandEvent, pulsesPerMm: i32, periodNs: u64): Channel
      requires Valid()
    {
      match event
      case JogIncrement(command) => AcceptIncrement(command, pulsesPerMm, periodNs)
      case JogStop => Cancel().(jogStop := true, phase := Stopping)
      case JogStopImmediate => ForceStopImmediate()
    }
  }

  function Schedule(command: JogCommand, pulsesPerMm: i32): Increment
    requires command.signedDeltaPulses.Finite?
  {
    Increment(Lane(command.path, command.axis), if command.signedDeltaPulses.value > 0.0 then 1 else -1,
              AbsReal(command.signedDeltaPulses.value), pulsesPerMm as real,
              command.targetRateMmPerMinute as real * pulsesPerMm as real / 60.0)
  }

  const NEW_CHANNEL := Channel(NO_COUNTS, NO_SCALES, NO_ENABLES, false, false, Idle, None, false)

  lemma ProductIsPositive(a: real, b: real)
    requires a > 0.0 && b > 0.0
    ensures a * b > 0.0
  {
  }

  lemma ScheduleIsPositive(command: JogCommand, pulsesPerMm: i32)
    requires command.signedDeltaPulses.Finite? && command.signedDeltaPulses.value != 0.0
    requires pulsesPerMm > 0 && command.targetRateMmPerMinute > 0
    ensures var s := Schedule(command, pulsesPerMm);
            s.remaining > 0.0 && s.pulsesPerMm > 0.0 && s.pulsesPerSecond > 0.0
  {
    ProductIsPositive(command.targetRateMmPerMinute as real, pulsesPerMm as real);
  }

  lemma BudgetIsPositive(a: Increment, periodNs: u64)
    requires a.pulsesPerSecond > 0.0 && periodNs > 0
    ensures a.Budget(periodNs) > 0.0
  {
    ProductIsPositive(a.pulsesPerSecond, periodNs as real);
  }

  // ------------------------------------------------------------------ the class

  class NativeMotionCommandChannel {
    var counts: seq<i32>
    var scales: seq<real>
    var enables: seq<bool>
    var jogStop: bool
    var jogStopImmediate: bool
    var phase: MotionPhase
    var active: Option<Increment>
    var rebasePending: bool

    ghost function Abs(): Channel
      reads this
    {
      Channel(counts, scales, enables, jogStop, jogStopImmediate, phase, active, rebasePending)
    }

    constructor ()
      ensures Abs() == NEW_CHANNEL && Abs().Valid()
    {
      counts, scales, enables := NO_COUNTS, NO_SCALES, NO_ENABLES;
      jogStop, jogStopImmediate := false, false;
      phase := Idle;
      active := None;
      rebasePending := false;
    }

    method Ready() returns (ready: bool)
      ensures ready == Abs().Ready()
    {
      ready := active.None? && !rebasePending && phase.Idle?;
    }

    method CancelIncrement()
      modifies this
      ensures Abs() == old(Abs()).Cancel()
    {
      active := None;
      if AnyNonzero(counts) {
        rebasePending := true;
      }
      enables := NO_ENABLES;
      scales := NO_SCALES;
    }

    method ForceStopImmediate()
      modifies this
      ensures Abs() == old(Abs()).ForceStopImmediate()
    {
      CancelIncrement();
      jogStop := true;
      jogStopImmediate := true;
      phase := StoppingImmediately;
    }

    method PublishNextChunk(periodNs: u64) returns (error: Option<MotionError>)
      requires Abs().Valid() && active.Some?
      modifies this
      ensures Abs() == old(Abs()).PublishNextChunk(periodNs)
      ensures error == old(Abs()).ChunkError(periodNs)
    {
      if periodNs == 0 {
        return Some(InvalidServoPeriod);
      }
      var a := active.value;
      var budget := a.Budget(periodNs);
      if budget <= 0.0 {
        return Some(InvalidTargetRate);
      }
      var chunk := if a.remaining <= budget then a.remaining else budget;
      var next := counts[a.lane] + a.direction;
      if next < -0x8000_0000 || next >= 0x8000_0000 {
        return Some(CountRangeExceeded);
      }
      counts := counts[a.lane := next];
      scales := scales[a.lane := chunk / a.pulsesPerMm];
      enables := enables[a.lane := true];
      phase := JogCount;
      if chunk >= a.remaining {
        active := None;
        rebasePending := true;
      } else {
        active := Some(a.(remaining := a.remaining - chunk));
      }
      return None;
    }

    method Advance(periodNs: u64) returns (error: Option<MotionError>)
      requires Abs().Valid()
      modifies this
      ensures Abs() == old(Abs()).Advance(periodNs)
      ensures error == old(Abs()).AdvanceError(periodNs)
    {
      scales := NO_SCALES;
      enables := NO_ENABLES;
      jogStop, jogStopImmediate := false, false;
      phase := Idle;
      error := None;
      if active.Some? {
        error := PublishNextChunk(periodNs);
      } else if rebasePending {
        counts := NO_COUNTS;
        phase := Rebase;
        rebasePending := false;
      }
    }

    method AcceptIncrement(command: JogCommand, pulsesPerMm: i32, periodNs: u64)
      returns (error: Option<MotionError>)
      requires Abs().Valid()
      modifies this
      ensures Abs() == old(Abs()).AcceptIncrement(command, pulsesPerMm, periodNs)
      ensures error == old(Abs()).AcceptError(JogIncrement(command), pulsesPerMm, periodNs)
    {
      var ready := Ready();
      if !ready {
        return Some(ChannelRebasing);
      }
      if pulsesPerMm <= 0 {
        return Some(InvalidPulsesPerMillimeter);
      }
      if periodNs == 0 {
        return Some(InvalidServoPeriod);
      }
      if command.targetRateMmPerMinute <= 0 {
        return Some(InvalidTargetRate);
      }
      if command.signedDeltaPulses.NotFinite? {
        return Some(NonFiniteDistance);
      }
      if command.signedDeltaPulses.value == 0.0 {
        return Some(ZeroDistance);
      }
      var schedule := Schedule(command, pulsesPerMm);
      var perCycle := schedule.Budget(periodNs);
      if perCycle <= 0.0 {
        return Some(InvalidTargetRate);
      }
      if AbsReal(command.signedDeltaPulses.value) / perCycle > I32_MAX as real {
        return Some(CountRangeExceeded);
      }
      ScheduleIsPositive(command, pulsesPerMm);
      active := Some(schedule);
      error := PublishNextChunk(periodNs);
    }

    method Accept(event: CommandEvent, pulsesPerMm: i32, periodNs: u64) returns (error: Option<MotionError>)
      requires Abs().Valid()
      modifies this
      ensures Abs() == old(Abs()).Accept(event, pulsesPerMm, periodNs)
      ensures error == old(Abs()).AcceptError(event, pulsesPerMm, periodNs)
    {
      error := None;
      match event {
        case JogIncrement(command) =>
          error := AcceptIncrement(command, pulsesPerMm, periodNs);
        case JogStop =>
          CancelIncrement();
          jogStop := true;
          phase := Stopping;
        case JogStopImmediate =>
          ForceStopImmediate();
      }
    }
  }
}
