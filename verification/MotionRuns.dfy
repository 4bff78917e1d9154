/** Conservation of distance: what the LinuxCNC consumer moves, over every run of
    servo cycles with any mix of periods, stops, clears and rejected commands. */
module MotionRuns {
  import opened Words
  import opened Pendant
  import opened Motion

  type c_long = x: int | -0x8000_0000_0000_0000 <= x < 0x8000_0000_0000_0000

  /** One call of the realtime component: its period, whether a new operator clear
      preempts the channel, and the command the supervisor issues, if any. */
  datatype Cycle = Cycle(period: c_long, clear: bool, command: Option<CommandEvent>)

  /** The channel's own step of a cycle, before the supervisor's command. */
  function Opened(c: Channel, y: Cycle): (d: Channel)
    requires c.Valid()
    ensures d.Valid()
  {
    if y.clear then c.ForceStopImmediate()
    else if y.period > 0 && c.AdvanceError(y.period).Some? then c.Advance(y.period).ForceStopImmediate()
    else if y.period > 0 then c.Advance(y.period)
    else c
  }

  function Served(c: Channel, y: Cycle): (d: Channel)
    requires c.Valid()
    ensures d.Valid()
  {
    if y.period <= 0 then c
    else
      var first := Opened(c, y);
      if y.command.None? then first
      else
        var d := first.Accept(y.command.value, PULSES_PER_MM, y.period);
        if first.AcceptError(y.command.value, PULSES_PER_MM, y.period).Some? then d.ForceStopImmediate() else d
  }

  /** The component's cycle, on the channel object itself. */
  method UpdateComponent(channel: NativeMotionCommandChannel, y: Cycle)
    requires channel.Abs().Valid()
    modifies channel
    ensures channel.Abs() == Served(old(channel.Abs()), y)
  {
    if y.period <= 0 {
      return;
    }
    if y.clear {
      channel.ForceStopImmediate();
    } else {
      var error := channel.Advance(y.period);
      if error.Some? {
        channel.ForceStopImmediate();
      }
    }
    if y.command.Some? {
      var error := channel.Accept(y.command.value, PULSES_PER_MM, y.period);
      if error.Some? {
        channel.ForceStopImmediate();
      }
    }
  }

  // ------------------------------------------------------------- the invariant

  predicate AtMostOne(counts: seq<i32>) {
    forall i, j | 0 <= i < |counts| && 0 <= j < |counts| :: counts[i] != 0 && counts[j] != 0 ==> i == j
  }

  /** At most one lane has a count, only such a lane can be enabled, and never
      together with a stop; an idle channel is back at zero. */
  predicate Sound(c: Channel) {
    && c.Valid()
    && AtMostOne(c.counts)
    && (forall l | 0 <= l < LANES ::
          if c.enables[l] then c.counts[l] != 0 && c.scales[l] > 0.0 else c.scales[l] == 0.0)
    && ((exists l | 0 <= l < LANES :: c.enables[l]) ==> c.phase.JogCount? && !c.jogStop && !c.jogStopImmediate)
    && (c.active.None? && !c.rebasePending ==> c.counts == NO_COUNTS)
    && (c.active.Some? ==>
          var a := c.active.value;
          && !c.rebasePending && c.enables[a.lane]
          && c.counts[a.lane] * a.direction >= 1
          && a.pulsesPerMm == PULSES_PER_MM as real)
  }

  lemma NothingNonzero(counts: seq<i32>)
    requires |counts| == LANES
    ensures AnyNonzero(counts) || counts == NO_COUNTS
  {
  }

  lemma SoundAfterCancel(c: Channel, d: Channel)
    requires c.Valid() && AtMostOne(c.counts)
    requires d == c.Cancel().(jogStop := d.jogStop, jogStopImmediate := d.jogStopImmediate, phase := d.phase)
    ensures Sound(d) && d.enables == NO_ENABLES && d.active.None?
  {
    NothingNonzero(c.counts);
    hide AnyNonzero, AtMostOne;
  }

  lemma SoundAfterForceStop(c: Channel)
    requires c.Valid() && AtMostOne(c.counts)
    ensures Sound(c.ForceStopImmediate())
  {
    hide Sound, AtMostOne;
    SoundAfterCancel(c, c.ForceStopImmediate());
  }

  lemma SoundAfterChunk(c: Channel, periodNs: u64)
    requires c.Valid() && c.active.Some? && c.ChunkError(periodNs).None?
    requires c.scales == NO_SCALES && c.enables == NO_ENABLES && !c.jogStop && !c.jogStopImmediate
    requires !c.rebasePending
    requires var a := c.active.value;
             && a.pulsesPerMm == PULSES_PER_MM as real
             && c.counts[a.lane] * a.direction >= 0
             && forall l | 0 <= l < LANES && l != a.lane :: c.counts[l] == 0
    ensures Sound(c.PublishNextChunk(periodNs))
  {
    BudgetIsPositive(c.active.value, periodNs);
  }

  lemma SoundAfterOpening(c: Channel, y: Cycle)
    requires Sound(c) && y.period > 0
    ensures Sound(Opened(c, y))
  {
    if y.clear {
      SoundAfterForceStop(c);
    } else if c.active.None? {
      SoundAfterRebase(c, y.period);
    } else {
      hide AnyNonzero, Increment.Budget, AtMostOne;
      if c.ChunkError(y.period).Some? {
        hide Sound;
        SoundAfterForceStop(c.ClearTransient());
      } else {
        SoundAfterChunk(c.ClearTransient(), y.period);
      }
    }
  }

  lemma SoundAfterRebase(c: Channel, periodNs: u64)
    requires Sound(c) && c.active.None?
    ensures Sound(c.Advance(periodNs)) && c.AdvanceError(periodNs).None?
  {
  }

  /** The command of this cycle is an increment, and it is accepted. */
  predicate Starts(c: Channel, y: Cycle)
    requires c.Valid()
  {
    && y.period > 0 && y.command.Some? && y.command.value.JogIncrement?
    && Opened(c, y).IncrementError(y.command.value.command, PULSES_PER_MM, y.period).None?
  }

  /** What cuts a running increment short: a clear, any command, an exhausted count. */
  predicate Interrupted(c: Channel, y: Cycle)
    requires c.Valid() && c.active.Some?
  {
    y.period > 0 && (y.clear || y.command.Some? || c.CountOverflows())
  }

  function Started(y: Cycle): Increment
    requires y.command.Some? && y.command.value.JogIncrement?
    requires y.command.value.command.signedDeltaPulses.Finite?
  {
    Schedule(y.command.value.command, PULSES_PER_MM)
  }

  /** The increment, as it stood before, whose chunk this cycle puts on the pins. */
  function Published(c: Channel, y: Cycle): Option<Increment>
    requires c.Valid()
  {
    if y.period <= 0 then None
    else if c.active.Some? && !Interrupted(c, y) then c.active
    else if Starts(c, y) then Some(Started(y))
    else None
  }

  function ChunkOf(a: Increment, periodNs: u64): real {
    if a.remaining <= a.Budget(periodNs) then a.remaining else a.Budget(periodNs)
  }

  function Rest(a: Increment, periodNs: u64): Option<Increment> {
    if ChunkOf(a, periodNs) >= a.remaining then None
    else Some(a.(remaining := a.remaining - ChunkOf(a, periodNs)))
  }

  // ------------------------------------------------------ what one cycle does

  /** A running increment nothing interrupts gets its next chunk out. */
  lemma Continuing(c: Channel, y: Cycle)
    requires Sound(c) && y.period > 0 && c.active.Some? && !Interrupted(c, y)
    ensures Served(c, y) == c.ClearTransient().PublishNextChunk(y.period)
    ensures c.ChunkError(y.period).None?
  {
    BudgetIsPositive(c.active.value, y.period);
  }

  /** An increment starts only on an idle channel, whose counts are all zero. */
  lemma Starting(c: Channel, y: Cycle)
    requires Sound(c) && Starts(c, y)
    ensures c.active.None? && Opened(c, y) == c.ClearTransient() && c.counts == NO_COUNTS && y.period > 0
    ensures y.command.value.command.signedDeltaPulses.Finite?
    ensures var d := c.ClearTransient().(active := Some(Started(y)));
            d.Valid() && d.ChunkError(y.period).None? && Served(c, y) == d.PublishNextChunk(y.period)
  {
    ScheduleIsPositive(y.command.value.command, PULSES_PER_MM);
    BudgetIsPositive(Started(y), y.period);
  }

  /** Every other cycle of the component leaves nothing enabled and nothing running. */
  lemma Resting(c: Channel, y: Cycle)
    requires Sound(c) && y.period > 0 && Published(c, y).None?
    ensures Served(c, y).enables == NO_ENABLES && Served(c, y).active.None?
    ensures Sound(Served(c, y))
  {
    SoundAfterOpening(c, y);
    var first := Opened(c, y);
    if c.active.Some? && !y.clear && y.command.None? {
      BudgetIsPositive(c.active.value, y.period);
    }
    if y.command.Some? && first.AcceptError(y.command.value, PULSES_PER_MM, y.period).Some? {
      SoundAfterForceStop(first.Accept(y.command.value, PULSES_PER_MM, y.period));
    } else if y.command.Some? {
      RestingAfterStop(first, y.command.value, y.period);
    }
  }

  lemma RestingAfterStop(c: Channel, event: CommandEvent, periodNs: u64)
    requires Sound(c) && !event.JogIncrement?
    ensures var d := c.Accept(event, PULSES_PER_MM, periodNs);
            Sound(d) && d.enables == NO_ENABLES && d.active.None?
  {
    assert c.Valid() && AtMostOne(c.counts);
    hide Sound, AtMostOne;
    SoundAfterCancel(c, c.Accept(event, PULSES_PER_MM, periodNs));
  }

  lemma SoundStep(c: Channel, y: Cycle)
    requires Sound(c)
    ensures Sound(Served(c, y))
  {
    if y.period > 0 {
      if Published(c, y).None? {
        Resting(c, y);
      } else if c.active.Some? {
        if Starts(c, y) {
          Starting(c, y);
        }
        Continuing(c, y);
        SoundAfterChunk(c.ClearTransient(), y.period);
      } else {
        Starting(c, y);
        SoundAfterChunk(c.ClearTransient().(active := Some(Started(y))), y.period);
      }
    }
  }

  // -------------------------------------------------------------- the consumer

  /** LinuxCNC's motion thread: it moves a lane by its count's change, times the
      scale, when the lane is enabled; and it always remembers the count. */
  datatype Servo = Servo(channel: Channel, oldCounts: seq<i32>, position: seq<real>)

  function Travel(c: Channel, oldCounts: seq<i32>, l: nat): real
    requires c.Valid() && |oldCounts| == LANES && l < LANES
  {
    if c.enables[l] then (c.counts[l] as int - oldCounts[l] as int) as real * c.scales[l] else 0.0
  }

  predicate Wired(s: Servo) {
    Sound(s.channel) && s.oldCounts == s.channel.counts && |s.position| == LANES
  }

  function Step(s: Servo, y: Cycle): Servo
    requires Wired(s)
  {
    var c := Served(s.channel, y);
    Servo(c, c.counts, seq(LANES, l requires 0 <= l < LANES => s.position[l] + Travel(c, s.oldCounts, l)))
  }

  function Along(a: Increment, l: nat, pulses: real): real {
    if l != a.lane then 0.0
    else if a.direction > 0 then pulses / PULSES_PER_MM as real
    else -pulses / PULSES_PER_MM as real
  }

  lemma ChunkTravel(c: Channel, oldCounts: seq<i32>, y: Cycle, l: nat)
    requires c.Valid() && c.active.Some? && c.enables == NO_ENABLES && y.period > 0
    requires c.ChunkError(y.period).None? && oldCounts == c.counts && l < LANES
    requires c.active.value.pulsesPerMm == PULSES_PER_MM as real
    ensures var a := c.active.value; var d := c.PublishNextChunk(y.period);
            && Travel(d, oldCounts, l) == Along(a, l, ChunkOf(a, y.period))
            && d.active == Rest(a, y.period)
  {
  }

  /** The travel of a published chunk, and what is left of its increment. */
  lemma PublishingTravel(c: Channel, y: Cycle, l: nat)
    requires Sound(c) && y.period > 0 && Published(c, y).Some? && l < LANES
    ensures var a := Published(c, y).value; var d := Served(c, y);
            Travel(d, c.counts, l) == Along(a, l, ChunkOf(a, y.period)) && d.active == Rest(a, y.period)
  {
    if c.active.Some? && !Interrupted(c, y) {
      Continuing(c, y);
      hide Served, Opened, Starts;
      ChunkTravel(c.ClearTransient(), c.counts, y, l);
    } else {
      Starting(c, y);
      hide Served, Opened, Starts;
      ChunkTravel(c.ClearTransient().(active := Some(Started(y))), c.counts, y, l);
    }
  }

  lemma RestingTravel(c: Channel, y: Cycle, l: nat)
    requires Sound(c) && Published(c, y).None? && l < LANES
    ensures Travel(Served(c, y), c.counts, l) == 0.0
    ensures y.period > 0 ==> Served(c, y).active.None?
  {
    if y.period > 0 {
      Resting(c, y);
    } else {
      NothingCounted(c, l);
    }
  }

  lemma NothingCounted(c: Channel, l: nat)
    requires c.Valid() && l < LANES
    ensures Travel(c, c.counts, l) == 0.0
  {
  }

  /** The whole effect of a cycle on the machine: the published chunk's distance,
      along the lane of its increment, and nothing anywhere else. */
  lemma CycleMoves(s: Servo, y: Cycle, l: nat)
    requires Wired(s) && l < LANES
    ensures Wired(Step(s, y))
    ensures var published := Published(s.channel, y);
            && Step(s, y).position[l] - s.position[l] ==
               (if published.None? then 0.0 else Along(published.value, l, ChunkOf(published.value, y.period)))
            && Step(s, y).channel.active ==
               (if y.period <= 0 then s.channel.active
                else if published.None? then None else Rest(published.value, y.period))
  {
    var c := s.channel;
    SoundStep(c, y);
    assert y.period <= 0 ==> Served(c, y) == c && Published(c, y).None?;
    hide Sound, Served, Travel, Along, ChunkOf, Rest, Published;
    if Published(c, y).None? {
      RestingTravel(c, y, l);
    } else {
      PublishingTravel(c, y, l);
    }
  }

  // ---------------------------------------------------------------------- runs

  predicate Initial(s: Servo) {
    s.channel == NEW_CHANNEL && s.oldCounts == NO_COUNTS && |s.position| == LANES
  }

  predicate Steps(t: seq<Servo>, ys: seq<Cycle>, k: nat)
    requires |t| == |ys| + 1 && k < |ys|
  {
    Wired(t[k]) && Wired(t[k + 1]) && t[k + 1] == Step(t[k], ys[k])
  }

  /** `t[k]` is the servo thread before cycle `k`, `t[k + 1]` after it. */
  predicate Execution(t: seq<Servo>, ys: seq<Cycle>) {
    && |t| == |ys| + 1
    && Initial(t[0])
    && forall k | 0 <= k < |ys| :: Steps(t, ys, k)
  }

  /** Every schedule of cycles has its execution, all of it sound. */
  lemma {:induction false} EveryScheduleRuns(s: Servo, ys: seq<Cycle>) returns (t: seq<Servo>)
    requires Initial(s)
    ensures Execution(t, ys) && t[0] == s && Wired(t[|ys|])
  {
    if ys == [] {
      t := [s];
    } else {
      var n := |ys| - 1;
      var front := EveryScheduleRuns(s, ys[..n]);
      CycleMoves(front[n], ys[n], 0);
      t := front + [Step(front[n], ys[n])];
      forall k | 0 <= k < |ys| ensures Steps(t, ys, k) {
        if k < n {
          assert Steps(front, ys[..n], k);
        }
      }
    }
  }

  lemma EveryStateIsWired(t: seq<Servo>, ys: seq<Cycle>, k: nat)
    requires Execution(t, ys) && k <= |ys|
    ensures Wired(t[k])
  {
    if k < |ys| {
      assert Steps(t, ys, k);
    } else if k > 0 {
      assert Steps(t, ys, k - 1);
    }
  }

  /** On every pin image of every run: one count at most, one enable at most, an
      enable only on the lane whose count runs, and never beside a stop. */
  lemma PinsAreExclusive(t: seq<Servo>, ys: seq<Cycle>, k: nat, i: nat, j: nat)
    requires Execution(t, ys) && k <= |ys| && i < LANES && j < LANES
    ensures var c := t[k].channel;
            && |c.counts| == |c.enables| == LANES
            && (c.counts[i] != 0 && c.counts[j] != 0 ==> i == j)
            && (c.enables[i] && c.enables[j] ==> i == j)
            && (c.enables[i] ==> c.counts[i] != 0 && !c.jogStop && !c.jogStopImmediate)
  {
    EveryStateIsWired(t, ys, k);
  }

  // ----------------------------------------------------- double-entry bookkeeping

  /** The distance that cycle `k` asks for along lane `l`. */
  function Request(t: seq<Servo>, ys: seq<Cycle>, k: nat, l: nat): real
    requires |t| == |ys| + 1 && k < |ys| && Wired(t[k])
  {
    if Starts(t[k].channel, ys[k]) && Started(ys[k]).lane == l
    then ys[k].command.value.command.signedDeltaPulses.value / PULSES_PER_MM as real
    else 0.0
  }

  /** The distance still scheduled along lane `l`. */
  function Outstanding(c: Channel, l: nat): real {
    if c.active.Some? then Along(c.active.value, l, c.active.value.remaining) else 0.0
  }

  /** What an interruption in cycle `k` takes back: all that was outstanding. */
  function Withdrawal(t: seq<Servo>, ys: seq<Cycle>, k: nat, l: nat): real
    requires |t| == |ys| + 1 && k < |ys| && Wired(t[k])
  {
    var c := t[k].channel;
    if c.active.Some? && Interrupted(c, ys[k]) then Outstanding(c, l) else 0.0
  }

  ghost function Requested(t: seq<Servo>, ys: seq<Cycle>, n: nat, l: nat): real
    requires Execution(t, ys) && n <= |ys|
  {
    if n == 0 then 0.0
    else
      EveryStateIsWired(t, ys, n - 1);
      Requested(t, ys, n - 1, l) + Request(t, ys, n - 1, l)
  }

  ghost function Withdrawn(t: seq<Servo>, ys: seq<Cycle>, n: nat, l: nat): real
    requires Execution(t, ys) && n <= |ys|
  {
    if n == 0 then 0.0
    else
      EveryStateIsWired(t, ys, n - 1);
      Withdrawn(t, ys, n - 1, l) + Withdrawal(t, ys, n - 1, l)
  }

  lemma BalancedCycle(t: seq<Servo>, ys: seq<Cycle>, k: nat, l: nat)
    requires Execution(t, ys) && k < |ys| && l < LANES
    ensures Wired(t[k]) && Wired(t[k + 1])
    ensures t[k + 1].position[l] - t[k].position[l] + Outstanding(t[k + 1].channel, l) ==
            Outstanding(t[k].channel, l) + Request(t, ys, k, l) - Withdrawal(t, ys, k, l)
  {
    assert Steps(t, ys, k);
    hide Step, Served, Opened, Starts, Sound, Execution;
    CycleMoves(t[k], ys[k], l);
    if Starts(t[k].channel, ys[k]) {
      Starting(t[k].channel, ys[k]);
    }
  }

  /** Of all distance ever accepted, every bit has been travelled, is still
      scheduled, or was withdrawn by an interruption. */
  lemma {:induction false} DistanceIsConserved(t: seq<Servo>, ys: seq<Cycle>, n: nat, l: nat)
    requires Execution(t, ys) && n <= |ys| && l < LANES
    ensures Wired(t[n])
    ensures Requested(t, ys, n, l) ==
            t[n].position[l] - t[0].position[l] + Outstanding(t[n].channel, l) + Withdrawn(t, ys, n, l)
  {
    if n > 0 {
      EveryStateIsWired(t, ys, n - 1);
      hide Execution, Outstanding, Request, Withdrawal, Wired;
      DistanceIsConserved(t, ys, n - 1, l);
      BalancedCycle(t, ys, n - 1, l);
    }
  }

  // --------------------------------------------------------- a single increment

  function Left(c: Channel): real {
    if c.active.Some? then c.active.value.remaining else 0.0
  }

  lemma StartIsPositive(c: Channel, y: Cycle)
    requires Sound(c) && Starts(c, y)
    ensures Started(y).remaining > 0.0 && Started(y).Budget(y.period) > 0.0
  {
    Starting(c, y);
    BudgetIsPositive(Started(y), y.period);
  }

  lemma FirstCycle(s: Servo, y: Cycle, l: nat)
    requires Wired(s) && Starts(s.channel, y) && l < LANES
    ensures var a, d := Started(y), Step(s, y);
            && 0.0 <= Left(d.channel) < a.remaining
            && d.channel.active in {None, Some(a.(remaining := Left(d.channel)))}
            && d.position[l] - s.position[l] == Along(a, l, a.remaining - Left(d.channel))
  {
    hide Served, Opened, Step, Starts;
    Starting(s.channel, y);
    StartIsPositive(s.channel, y);
    CycleMoves(s, y, l);
  }

  lemma LaterCycle(s: Servo, y: Cycle, l: nat)
    requires Wired(s) && s.channel.active.Some? && l < LANES
    ensures var a, d := s.channel.active.value, Step(s, y);
            if Interrupted(s.channel, y) then
              d.position[l] == s.position[l] && d.channel.active.None?
            else
              && 0.0 <= Left(d.channel) <= a.remaining
              && d.channel.active in {None, Some(a.(remaining := Left(d.channel)))}
              && d.position[l] - s.position[l] == Along(a, l, a.remaining - Left(d.channel))
  {
    hide Served, Opened, Step, Starts;
    if Starts(s.channel, y) {
      Starting(s.channel, y);
    }
    CycleMoves(s, y, l);
    if y.period > 0 {
      BudgetIsPositive(s.channel.active.value, y.period);
    }
  }

  lemma AlongAdds(a: Increment, r: real, l: nat, p: real, q: real)
    ensures Along(a, l, p) + Along(a.(remaining := r), l, q) == Along(a, l, p + q)
  {
  }

  /** The increment accepted in cycle `a` is still running before cycle `k`. */
  predicate Underway(t: seq<Servo>, ys: seq<Cycle>, a: nat, k: nat) {
    && |t| == |ys| + 1 && a < k <= |ys|
    && Wired(t[a]) && Starts(t[a].channel, ys[a])
    && forall j | a < j <= k :: t[j].channel.active.Some?
  }

  lemma {:induction false} ProgressSoFar(t: seq<Servo>, ys: seq<Cycle>, a: nat, k: nat, l: nat)
    requires Execution(t, ys) && Underway(t, ys, a, k) && l < LANES
    ensures Wired(t[k])
    ensures var s := Started(ys[a]);
            && t[k].channel.active == Some(s.(remaining := Left(t[k].channel))) && Left(t[k].channel) < s.remaining
            && t[k].position[l] - t[a].position[l] == Along(s, l, s.remaining - Left(t[k].channel))
  {
    hide Step, Interrupted, Along;
    assert Steps(t, ys, k - 1);
    hide Wired;
    if k == a + 1 {
      FirstCycle(t[a], ys[a], l);
    } else {
      ProgressSoFar(t, ys, a, k - 1, l);
      LaterCycle(t[k - 1], ys[k - 1], l);
      var s, was := Started(ys[a]), Left(t[k - 1].channel);
      AlongAdds(s, was, l, s.remaining - was, was - Left(t[k].channel));
    }
  }

  /** The increment accepted in cycle `a` stops running in cycle `b`. */
  predicate Ends(t: seq<Servo>, ys: seq<Cycle>, a: nat, b: nat) {
    && |t| == |ys| + 1 && a <= b < |ys|
    && Wired(t[a]) && Starts(t[a].channel, ys[a])
    && (a < b ==> Underway(t, ys, a, b))
    && Wired(t[b]) && t[b + 1].channel.active.None?
  }

  predicate CutShort(t: seq<Servo>, ys: seq<Cycle>, a: nat, b: nat)
    requires Ends(t, ys, a, b)
  {
    a < b && Interrupted(t[b].channel, ys[b])
  }

  lemma IncrementTravel(t: seq<Servo>, ys: seq<Cycle>, a: nat, b: nat, l: nat)
    requires Execution(t, ys) && Ends(t, ys, a, b) && l < LANES
    ensures Wired(t[b + 1])
    ensures var s := Started(ys[a]);
            var kept := if CutShort(t, ys, a, b) then Left(t[b].channel) else 0.0;
            && (CutShort(t, ys, a, b) ==> 0.0 < kept < s.remaining)
            && t[b + 1].position[l] - t[a].position[l] == Along(s, l, s.remaining - kept)
  {
    hide Step, Interrupted, Along;
    assert Steps(t, ys, b);
    if a == b {
      FirstCycle(t[a], ys[a], l);
    } else {
      ProgressSoFar(t, ys, a, b, l);
      LaterCycle(t[b], ys[b], l);
      var s, was := Started(ys[a]), Left(t[b].channel);
      AlongAdds(s, was, l, s.remaining - was, was);
    }
  }

  /** An increment accepted in cycle `a` that stops running in cycle `b` moved its
      lane by exactly the distance asked for, unless cycle `b` cut it short; then it
      moved a part of it, in the same direction and less than the whole. No other
      lane moved at all. */
  lemma IncrementMoves(t: seq<Servo>, ys: seq<Cycle>, a: nat, b: nat, l: nat)
    requires Execution(t, ys) && Ends(t, ys, a, b) && l < LANES
    ensures Wired(t[b + 1])
    ensures var moved := t[b + 1].position[l] - t[a].position[l];
            var asked := Request(t, ys, a, l);
            if CutShort(t, ys, a, b) then
              if asked > 0.0 then 0.0 < moved < asked
              else if asked < 0.0 then asked < moved < 0.0
              else moved == 0.0
            else moved == asked
  {
    hide Served, Opened, Starts, Step, Execution, Sound, Underway, Interrupted;
    IncrementTravel(t, ys, a, b, l);
  }

  /** A cycle that is not publishing, a rebase among them, moves nothing. */
  lemma OnlyChunksMove(t: seq<Servo>, ys: seq<Cycle>, k: nat, l: nat)
    requires Execution(t, ys) && k < |ys| && l < LANES
    requires t[k].channel.Valid() && Published(t[k].channel, ys[k]).None?
    ensures Wired(t[k]) && Wired(t[k + 1]) && t[k + 1].position[l] == t[k].position[l]
  {
    assert Steps(t, ys, k);
    CycleMoves(t[k], ys[k], l);
  }
}
