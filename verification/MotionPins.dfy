/** Which stop pins and which phase every cycle of the motion component shows. */
module MotionPins {
  import opened Words
  import opened Pendant
  import opened Motion
  import opened MotionRuns

  predicate AsksIncrement(y: Cycle) {
    y.command.Some? && y.command.value.JogIncrement?
  }

  predicate AsksStop(y: Cycle) {
    y.command.Some? && y.command.value.JogStop?
  }

  predicate AsksStopImmediate(y: Cycle) {
    y.command.Some? && y.command.value.JogStopImmediate?
  }

  /** The pulses that one cycle of the asked increment's rate may issue. */
  function PulsesPerCycle(rateMmPerMinute: i32, period: c_long): real {
    rateMmPerMinute as real * PULSES_PER_MM as real / 60.0 * period as real / 1_000_000_000.0
  }

  /** The distance and rate of the asked increment are such that it may start: its
      chunks of the present period do not outnumber the 32-bit count. */
  predicate Admissible(y: Cycle)
    requires y.period > 0 && AsksIncrement(y)
  {
    var command := y.command.value.command;
    && command.targetRateMmPerMinute > 0
    && command.signedDeltaPulses.Finite?
    && command.signedDeltaPulses.value != 0.0
    && var perCycle := PulsesPerCycle(command.targetRateMmPerMinute, y.period);
    perCycle > 0.0 && AbsReal(command.signedDeltaPulses.value) / perCycle <= 2147483647.0
  }

  /** The asked increment is refused: the channel is not idle, or is just being
      cleared, or the increment is not admissible. */
  predicate RefusesIncrement(c: Channel, y: Cycle) {
    && y.period > 0 && AsksIncrement(y)
    && (y.clear || c.active.Some? || c.rebasePending || !Admissible(y))
  }

  /** The running increment cannot count on. */
  predicate Overflows(c: Channel, y: Cycle) {
    && y.period > 0 && !y.clear && c.Valid() && c.active.Some?
    && !(-0x8000_0000 <= c.counts[c.active.value.lane] + c.active.value.direction <= 0x7fff_ffff)
  }

  /** The component stops at once: on a clear, on command, or because it failed. */
  predicate StopsAtOnce(c: Channel, y: Cycle) {
    y.clear || AsksStopImmediate(y) || Overflows(c, y) || RefusesIncrement(c, y)
  }

  lemma OpeningShows(c: Channel, y: Cycle)
    requires Sound(c) && y.period > 0
    ensures var d, failed := Opened(c, y), y.clear || Overflows(c, y);
            && d.jogStop == d.jogStopImmediate == failed
            && (failed ==> d.phase.StoppingImmediately? && d.active.None?)
            && (!failed ==>
                  if c.active.Some? then d.phase.JogCount?
                  else if c.rebasePending then d.phase.Rebase? else d.phase.Idle?)
  {
    if c.active.Some? {
      BudgetIsPositive(c.active.value, y.period);
    }
  }

  lemma ReadyAfterOpening(c: Channel, y: Cycle)
    requires Sound(c) && y.period > 0
    ensures Opened(c, y).Ready() <==> !y.clear && c.active.None? && !c.rebasePending
  {
    OpeningShows(c, y);
    if c.active.Some? {
      hide Opened;
    }
  }

  lemma BudgetOfSchedule(command: JogCommand, period: c_long)
    requires period > 0 && command.signedDeltaPulses.Finite?
    ensures Schedule(command, PULSES_PER_MM).Budget(period) == PulsesPerCycle(command.targetRateMmPerMinute, period)
  {
  }

  lemma AcceptsExactly(c: Channel, y: Cycle)
    requires Sound(c) && y.period > 0 && AsksIncrement(y)
    ensures Starts(c, y) <==> !RefusesIncrement(c, y)
  {
    ReadyAfterOpening(c, y);
    var command := y.command.value.command;
    if command.signedDeltaPulses.Finite? {
      BudgetOfSchedule(command, y.period);
    }
    hide Sound, Opened, Channel.Ready, Schedule, Increment.Budget, PulsesPerCycle, AbsReal;
  }

  /** What the pins show after a cycle that the component serves. */
  predicate Shows(c: Channel, y: Cycle, d: Channel) {
    && (d.jogStop <==> StopsAtOnce(c, y) || AsksStop(y))
    && (d.jogStopImmediate <==> StopsAtOnce(c, y))
    && d.phase ==
       (if AsksStop(y) then Stopping
        else if StopsAtOnce(c, y) then StoppingImmediately
        else if c.active.Some? || AsksIncrement(y) then JogCount
        else if c.rebasePending then Rebase
        else Idle)
  }

  lemma ServedShows(c: Channel, y: Cycle)
    requires Sound(c) && y.period > 0
    ensures Shows(c, y, Served(c, y))
  {
    OpeningShows(c, y);
    if AsksIncrement(y) {
      AcceptsExactly(c, y);
      if Starts(c, y) {
        Starting(c, y);
        hide Served, Opened, Starts, RefusesIncrement, Sound;
        ChunkShows(c.ClearTransient().(active := Some(Started(y))), y.period);
      } else {
        RefusedIncrement(c, y);
      }
    } else {
      hide Opened, Sound;
    }
  }

  lemma ChunkShows(c: Channel, periodNs: u64)
    requires c.Valid() && c.active.Some? && c.ChunkError(periodNs).None?
    ensures var d := c.PublishNextChunk(periodNs);
            d.jogStop == c.jogStop && d.jogStopImmediate == c.jogStopImmediate && d.phase.JogCount?
  {
  }

  lemma RefusedIncrement(c: Channel, y: Cycle)
    requires Sound(c) && y.period > 0 && AsksIncrement(y) && !Starts(c, y)
    ensures var d := Served(c, y); d.jogStop && d.jogStopImmediate && d.phase.StoppingImmediately?
  {
    hide Opened, Sound;
  }

  /** On every pin image that a served cycle leaves: the stop pin is high if and only if
      the cycle was a clear, a stop, an immediate stop, or failed; the immediate pin if
      and only if it was one of these other than a plain stop. A clear that carries a
      stop command of its own so leaves both high. */
  lemma StopPinsExactly(t: seq<Servo>, ys: seq<Cycle>, k: nat)
    requires Execution(t, ys) && k < |ys| && ys[k].period > 0
    ensures Wired(t[k]) && Shows(t[k].channel, ys[k], t[k + 1].channel)
    ensures ys[k].clear && AsksStop(ys[k]) ==> t[k + 1].channel.jogStop && t[k + 1].channel.jogStopImmediate
  {
    assert Steps(t, ys, k);
    hide Served, Execution;
    ServedShows(t[k].channel, ys[k]);
  }

  /** A period that is not positive is not served: all pins stay. */
  lemma SkippedCycleKeepsPins(t: seq<Servo>, ys: seq<Cycle>, k: nat)
    requires Execution(t, ys) && k < |ys| && ys[k].period <= 0
    ensures t[k + 1].channel == t[k].channel
  {
    assert Steps(t, ys, k);
  }

  /** Why an asked increment is refused: the first of these that holds. */
  lemma RefusalNamesItsCause(c: Channel, y: Cycle)
    requires Sound(c) && RefusesIncrement(c, y)
    ensures var command := y.command.value.command;
            var error := Opened(c, y).AcceptError(y.command.value, PULSES_PER_MM, y.period);
            error == Some(
              if y.clear || c.active.Some? || c.rebasePending then ChannelRebasing
              else if command.targetRateMmPerMinute <= 0 then InvalidTargetRate
              else if command.signedDeltaPulses.NotFinite? then NonFiniteDistance
              else if command.signedDeltaPulses.value == 0.0 then ZeroDistance
              else CountRangeExceeded)
  {
    ReadyAfterOpening(c, y);
    var command := y.command.value.command;
    if command.targetRateMmPerMinute > 0 && command.signedDeltaPulses.Finite? {
      BudgetOfSchedule(command, y.period);
      RateIsPositive(command.targetRateMmPerMinute, y.period);
    }
    hide Sound, Opened, Channel.Ready, Schedule, Increment.Budget, PulsesPerCycle, AbsReal;
  }

  lemma RateIsPositive(rateMmPerMinute: i32, period: c_long)
    requires rateMmPerMinute > 0 && period > 0
    ensures PulsesPerCycle(rateMmPerMinute, period) > 0.0
  {
    ProductIsPositive(rateMmPerMinute as real, PULSES_PER_MM as real);
    ProductIsPositive(rateMmPerMinute as real * PULSES_PER_MM as real / 60.0, period as real);
  }

  /** The first three lanes are the axis wheels X, Y, Z, the other three the joints. */
  lemma LanesExactly(command: JogCommand, pulsesPerMm: i32)
    requires command.signedDeltaPulses.Finite?
    ensures Schedule(command, pulsesPerMm).lane ==
            match (command.path, command.axis)
            case (AxisTeleop, AxisX) => 0
            case (AxisTeleop, AxisY) => 1
            case (AxisTeleop, AxisZ) => 2
            case (JointFree, AxisX) => 3
            case (JointFree, AxisY) => 4
            case (JointFree, AxisZ) => 5
  {
  }

  /** A scale that is not positive is refused before anything about the command, and
      any other is accepted as it is; then a period of zero is. */
  lemma ScaleIsChecked(c: Channel, command: JogCommand, pulsesPerMm: i32, periodNs: u64)
    requires c.Ready()
    ensures c.IncrementError(command, pulsesPerMm, periodNs) == Some(InvalidPulsesPerMillimeter) <==> pulsesPerMm <= 0
    ensures c.IncrementError(command, pulsesPerMm, periodNs) == Some(InvalidServoPeriod) <==>
            pulsesPerMm > 0 && periodNs == 0
  {
  }

  /** Why a running increment fails to advance: for a period of zero, or because its lane
      has no further count in its direction. */
  lemma RunningFailureNamesItsCause(c: Channel, periodNs: u64)
    requires Sound(c)
    ensures c.AdvanceError(periodNs) ==
            if c.active.None? then None
            else if periodNs == 0 then Some(InvalidServoPeriod)
            else if -0x8000_0000 <= c.counts[c.active.value.lane] + c.active.value.direction <= 0x7fff_ffff then None
            else Some(CountRangeExceeded)
  {
    if c.active.Some? && periodNs > 0 {
      BudgetIsPositive(c.active.value, periodNs);
    }
    hide Increment.Budget;
  }
}
