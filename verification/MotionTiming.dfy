/** How far and how long an increment runs, read off the schedule of periods. */
module MotionTiming {
  import opened Words
  import Pendant
  import opened Motion
  import opened MotionRuns

  /** Increment `s` is accepted by cycle `y`. */
  predicate Begins(servo: Servo, y: Cycle, s: Increment) {
    Wired(servo) && Starts(servo.channel, y) && s == Started(y)
  }

  /** After cycle `a` and before cycle `n`, nothing is asked of the channel. */
  predicate NothingAsked(ys: seq<Cycle>, a: nat, n: nat) {
    a <= n <= |ys| && forall k | a < k < n :: !ys[k].clear && ys[k].command.None?
  }

  /** How many chunks a 32-bit count can tick off: the negative range is one longer. */
  function CountLimit(s: Increment): nat {
    if s.direction > 0 then 0x7fff_ffff else 0x8000_0000
  }

  /** The cycles a..n that are served at all: a period that is not positive is skipped. */
  function Chunks(ys: seq<Cycle>, a: nat, n: nat): nat
    requires a <= n <= |ys|
  {
    if n == a then 0 else Chunks(ys, a, n - 1) + if ys[n - 1].period > 0 then 1 else 0
  }

  /** The budgets of the cycles a..n, as long as the count lasts. */
  function Paid(ys: seq<Cycle>, s: Increment, a: nat, n: nat): real
    requires a <= n <= |ys|
  {
    if n == a then 0.0
    else
      Paid(ys, s, a, n - 1)
      + if ys[n - 1].period > 0 && Chunks(ys, a, n) <= CountLimit(s) then s.Budget(ys[n - 1].period) else 0.0
  }

  /** A distance is still to go, and there is a count to go with. */
  predicate Going(s: Increment, paid: real, chunks: nat) {
    paid < s.remaining && chunks <= CountLimit(s)
  }

  function Least(x: real, y: real): real {
    if x <= y then x else y
  }

  // --------------------------------------------------------------- one more cycle

  /** The count ticked off so far, in the increment's direction. */
  predicate Ticked(c: Channel, s: Increment, chunks: nat) {
    && c.Valid() && s.lane < LANES && s.direction in {-1, 1}
    && if s.direction > 0 then c.counts[s.lane] == chunks else c.counts[s.lane] as int + chunks == 0
  }

  /** A chunk is on the pins: the lane is enabled, its count has just ticked. */
  predicate ChunkOut(c: Channel, s: Increment, chunks: nat) {
    && Ticked(c, s, chunks)
    && c.phase.JogCount? && c.enables[s.lane]
    && (c.active.None? ==> c.rebasePending)
  }

  /** What publishing does, in terms of the budget. */
  lemma ChunkPublished(c: Channel, periodNs: u64)
    requires c.Valid() && c.active.Some? && c.ChunkError(periodNs).None?
    ensures var d, a := c.PublishNextChunk(periodNs), c.active.value;
            var b := a.Budget(periodNs);
            && d.Valid() && d.phase.JogCount? && d.enables[a.lane]
            && d.counts[a.lane] == c.NextCount()
            && d.active == (if a.remaining <= b then None else Some(a.(remaining := a.remaining - b)))
            && (a.remaining <= b ==> d.rebasePending)
  {
    hide Increment.Budget;
  }

  /** The chunk of the cycle that accepts the increment. */
  lemma FirstChunk(c: Channel, y: Cycle)
    requires Sound(c) && Starts(c, y)
    ensures ChunkOut(Served(c, y), Started(y), 1)
  {
    Starting(c, y);
    hide Served, Starts, Sound, Increment.Budget;
    var d := c.ClearTransient().(active := Some(Started(y)));
    hide Channel.ChunkError, Channel.PublishNextChunk, Started;
    ChunkPublished(d, y.period);
  }

  /** A running increment's count overflows exactly after its limit; before that, the
      next chunk goes out. */
  lemma NextChunk(c: Channel, y: Cycle, s: Increment, r: real, chunks: nat)
    requires Sound(c) && y.period > 0 && !y.clear && y.command.None?
    requires c.active == Some(s.(remaining := r)) && Ticked(c, s, chunks) && chunks <= CountLimit(s)
    ensures c.CountOverflows() <==> chunks + 1 > CountLimit(s)
    ensures Interrupted(c, y) <==> chunks + 1 > CountLimit(s)
    ensures chunks < CountLimit(s) ==> ChunkOut(Served(c, y), s, chunks + 1)
  {
    hide Served, Opened, Starts, Increment.Budget;
    if chunks < CountLimit(s) {
      Continuing(c, y);
      hide Channel.ChunkError, Channel.PublishNextChunk, Sound;
      ChunkPublished(c.ClearTransient(), y.period);
    }
  }

  // ---------------------------------------------------------------- whole schedules

  /** The channel, and the machine's travel since `start`, as the schedule has them. */
  predicate Stage(start: real, u: Servo, s: Increment, paid: real, chunks: nat, l: nat)
    requires |u.position| == LANES && l < LANES
  {
    && (if Going(s, paid, chunks) then
          u.channel.active == Some(s.(remaining := s.remaining - paid)) && Ticked(u.channel, s, chunks)
        else u.channel.active.None?)
    && u.position[l] - start == Along(s, l, Least(s.remaining, paid))
  }

  predicate OnSchedule(t: seq<Servo>, ys: seq<Cycle>, s: Increment, a: nat, n: nat, l: nat)
    requires |t| == |ys| + 1 && a < n <= |ys| && l < LANES
    requires |t[a].position| == |t[n].position| == LANES
  {
    Stage(t[a].position[l], t[n], s, Paid(ys, s, a, n), Chunks(ys, a, n), l)
  }

  /** Nothing runs, nothing is asked; or the cycle is skipped. */
  lemma QuietCycle(u: Servo, y: Cycle, l: nat)
    requires Wired(u) && l < LANES && y.command.None? && (u.channel.active.None? || y.period <= 0)
    ensures var d := Step(u, y);
            && Wired(d) && d.position[l] == u.position[l]
            && d.channel.active == u.channel.active && (y.period <= 0 ==> d.channel == u.channel)
  {
    assert y.period <= 0 ==> Served(u.channel, y) == u.channel;
    hide Served, Opened;
    CycleMoves(u, y, l);
  }

  /** The count is used up: the increment ends where it stands. */
  lemma LastStraw(u: Servo, y: Cycle, s: Increment, r: real, l: nat)
    requires Wired(u) && l < LANES && y.period > 0 && !y.clear && y.command.None?
    requires u.channel.active == Some(s.(remaining := r)) && Ticked(u.channel, s, CountLimit(s))
    ensures var d := Step(u, y);
            Wired(d) && d.position[l] == u.position[l] && d.channel.active.None?
  {
    hide Served, Opened, Step;
    assert u.channel.Valid();
    hide Sound;
    NextChunk(u.channel, y, s, r, CountLimit(s));
    CycleMoves(u, y, l);
  }

  /** The next chunk goes out: a budget, or what is left. */
  lemma PacedCycle(u: Servo, y: Cycle, s: Increment, r: real, chunks: nat, l: nat)
    requires Wired(u) && l < LANES && y.period > 0 && !y.clear && y.command.None?
    requires u.channel.active == Some(s.(remaining := r)) && Ticked(u.channel, s, chunks) && chunks < CountLimit(s)
    ensures var d, b := Step(u, y), s.Budget(y.period);
            && Wired(d) && ChunkOut(d.channel, s, chunks + 1)
            && d.channel.active == (if r <= b then None else Some(s.(remaining := r - b)))
            && d.position[l] - u.position[l] == Along(s, l, Least(r, b))
  {
    hide Served, Opened, Step, Ticked, ChunkOut;
    assert u.channel.Valid();
    hide Sound;
    NextChunk(u.channel, y, s, r, chunks);
    CycleMoves(u, y, l);
    StepServes(u, y);
    hide Increment.Budget;
    assert u.channel.active.value.Budget(y.period) == s.Budget(y.period) by { SameBudget(s, r, y.period); }
  }

  lemma StepServes(u: Servo, y: Cycle)
    requires Wired(u)
    ensures Step(u, y).channel == Served(u.channel, y)
  {
  }

  lemma SameBudget(s: Increment, r: real, periodNs: u64)
    ensures s.(remaining := r).Budget(periodNs) == s.Budget(periodNs)
  {
  }

  lemma FirstOnSchedule(t: seq<Servo>, ys: seq<Cycle>, s: Increment, a: nat, l: nat)
    requires Execution(t, ys) && a < |ys| && Begins(t[a], ys[a], s) && l < LANES
    ensures Wired(t[a + 1]) && OnSchedule(t, ys, s, a, a + 1, l) && ChunkOut(t[a + 1].channel, s, 1)
  {
    assert Steps(t, ys, a);
    Starting(t[a].channel, ys[a]);
    hide Served, Opened, Starts, Step, Execution;
    StartIsPositive(t[a].channel, ys[a]);
    CycleMoves(t[a], ys[a], l);
    FirstChunk(t[a].channel, ys[a]);
    hide Sound, Increment.Budget, Started;
    assert Chunks(ys, a, a) == 0 && Chunks(ys, a, a + 1) == 1;
    assert Paid(ys, s, a, a + 1) == s.Budget(ys[a].period);
  }

  lemma StageStep(start: real, u: Servo, y: Cycle, s: Increment, paid: real, chunks: nat, l: nat)
    requires Wired(u) && l < LANES && Stage(start, u, s, paid, chunks, l) && s.pulsesPerSecond > 0.0
    requires !y.clear && y.command.None?
    ensures var more := chunks + if y.period > 0 then 1 else 0;
            var next := paid + if y.period > 0 && more <= CountLimit(s) then s.Budget(y.period) else 0.0;
            Wired(Step(u, y)) && Stage(start, Step(u, y), s, next, more, l)
    ensures Going(s, paid, chunks) && y.period > 0 && chunks < CountLimit(s) ==>
              ChunkOut(Step(u, y).channel, s, chunks + 1)
  {
    hide Step, Along, Wired, Served;
    if y.period > 0 {
      BudgetIsPositive(s, y.period);
    }
    hide Increment.Budget;
    if !Going(s, paid, chunks) || y.period <= 0 {
      QuietCycle(u, y, l);
    } else if chunks == CountLimit(s) {
      LastStraw(u, y, s, s.remaining - paid, l);
    } else {
      PacedCycle(u, y, s, s.remaining - paid, chunks, l);
      AlongAdds(s, s.remaining - paid, l, paid, Least(s.remaining - paid, s.Budget(y.period)));
      SameLane(s, s.remaining - paid, l, Least(s.remaining - paid, s.Budget(y.period)));
    }
  }

  lemma SameLane(s: Increment, r: real, l: nat, p: real)
    ensures Along(s.(remaining := r), l, p) == Along(s, l, p)
  {
  }

  lemma LaterOnSchedule(t: seq<Servo>, ys: seq<Cycle>, s: Increment, a: nat, n: nat, l: nat)
    requires Execution(t, ys) && a < n < |ys| && l < LANES && NothingAsked(ys, a, n + 1)
    requires s.pulsesPerSecond > 0.0
    requires Wired(t[a]) && Wired(t[n]) && OnSchedule(t, ys, s, a, n, l)
    ensures Wired(t[n + 1]) && OnSchedule(t, ys, s, a, n + 1, l)
    ensures Going(s, Paid(ys, s, a, n), Chunks(ys, a, n)) && ys[n].period > 0 && Chunks(ys, a, n) < CountLimit(s) ==>
              ChunkOut(t[n + 1].channel, s, Chunks(ys, a, n) + 1)
  {
    assert Steps(t, ys, n);
    hide Step, Wired, Stage, Going, CountLimit;
    StageStep(t[a].position[l], t[n], ys[n], s, Paid(ys, s, a, n), Chunks(ys, a, n), l);
  }

  /** Both directions at once, for every schedule of periods: before cycle `n` the
      increment has moved its lane by what the schedule paid, and no further than
      asked; and it still runs exactly while distance and count are left. */
  lemma {:induction false} TravelIsPaid(t: seq<Servo>, ys: seq<Cycle>, s: Increment, a: nat, n: nat, l: nat)
    requires Execution(t, ys) && a < n <= |ys| && l < LANES
    requires Begins(t[a], ys[a], s) && NothingAsked(ys, a, n)
    ensures Wired(t[n])
    ensures t[n].position[l] - t[a].position[l] == Along(s, l, Least(s.remaining, Paid(ys, s, a, n)))
    ensures t[n].channel.active.Some? <==> Going(s, Paid(ys, s, a, n), Chunks(ys, a, n))
    ensures OnSchedule(t, ys, s, a, n, l)
  {
    if n == a + 1 {
      FirstOnSchedule(t, ys, s, a, l);
    } else {
      TravelIsPaid(t, ys, s, a, n - 1, l);
      StartRate(t[a].channel, ys[a]);
      LaterOnSchedule(t, ys, s, a, n - 1, l);
    }
    hide Execution, Begins, Going, Paid, Chunks;
  }

  lemma StartRate(c: Channel, y: Cycle)
    requires Sound(c) && Starts(c, y)
    ensures Started(y).pulsesPerSecond > 0.0
  {
    Starting(c, y);
    ScheduleIsPositive(y.command.value.command, Pendant.PULSES_PER_MM);
  }

  // ------------------------------------------------------- where an increment ends

  lemma {:induction false} ScheduleGrows(ys: seq<Cycle>, s: Increment, a: nat, m: nat, n: nat)
    requires a <= m <= n <= |ys| && s.pulsesPerSecond > 0.0
    ensures Chunks(ys, a, m) <= Chunks(ys, a, n) && Paid(ys, s, a, m) <= Paid(ys, s, a, n)
    ensures Chunks(ys, a, m) > CountLimit(s) ==> Paid(ys, s, a, n) == Paid(ys, s, a, m)
    ensures Going(s, Paid(ys, s, a, n), Chunks(ys, a, n)) ==> Going(s, Paid(ys, s, a, m), Chunks(ys, a, m))
  {
    hide Increment.Budget;
    if m < n {
      ScheduleGrows(ys, s, a, m, n - 1);
      if ys[n - 1].period > 0 {
        BudgetIsPositive(s, ys[n - 1].period);
      }
    }
  }

  lemma SkippedCycle(u: Servo, y: Cycle)
    requires Wired(u)
    ensures y.period <= 0 ==> Step(u, y).channel == u.channel
  {
  }

  /** The cycle in which a running increment stops: it is served, and interrupted
      exactly by the used-up count. */
  lemma FailingCycle(start: real, u: Servo, y: Cycle, s: Increment, paid: real, chunks: nat)
    requires Wired(u) && Stage(start, u, s, paid, chunks, 0) && u.channel.active.Some?
    requires !y.clear && y.command.None? && Step(u, y).channel.active.None?
    ensures y.period > 0 && paid < s.remaining
    ensures Interrupted(u.channel, y) <==> chunks + 1 > CountLimit(s)
  {
    hide Served, Increment.Budget, Interrupted, Step;
    SkippedCycle(u, y);
    NextChunk(u.channel, y, s, s.remaining - paid, chunks);
  }

  /** At its end, the increment was cut short exactly if the schedule had not paid for
      the whole distance, which is exactly if the count was used up. */
  lemma EndIsScheduled(t: seq<Servo>, ys: seq<Cycle>, s: Increment, a: nat, b: nat)
    requires Execution(t, ys) && Ends(t, ys, a, b) && Begins(t[a], ys[a], s) && NothingAsked(ys, a, b + 1)
    ensures CutShort(t, ys, a, b) <==> Paid(ys, s, a, b + 1) < s.remaining
    ensures CutShort(t, ys, a, b) <==> Chunks(ys, a, b + 1) > CountLimit(s)
  {
    TravelIsPaid(t, ys, s, a, b + 1, 0);
    if a == b {
      assert Chunks(ys, a, a) == 0 && CountLimit(s) >= 1;
    } else {
      TravelIsPaid(t, ys, s, a, b, 0);
      assert Steps(t, ys, b);
      hide Execution, Increment.Budget, Begins, Stage, Step, Interrupted, Wired;
      FailingCycle(t[a].position[0], t[b], ys[b], s, Paid(ys, s, a, b), Chunks(ys, a, b));
    }
  }

  predicate EndsInFull(t: seq<Servo>, ys: seq<Cycle>, a: nat, b: nat) {
    Ends(t, ys, a, b) && !CutShort(t, ys, a, b)
  }

  predicate EndsCutShort(t: seq<Servo>, ys: seq<Cycle>, a: nat, b: nat) {
    Ends(t, ys, a, b) && CutShort(t, ys, a, b)
  }

  lemma {:induction false} EndIsFound(t: seq<Servo>, ys: seq<Cycle>, s: Increment, a: nat, n: nat) returns (b: nat)
    requires Execution(t, ys) && a < n <= |ys| && Begins(t[a], ys[a], s) && NothingAsked(ys, a, n)
    requires !Going(s, Paid(ys, s, a, n), Chunks(ys, a, n))
    ensures a <= b < n && Ends(t, ys, a, b)
  {
    TravelIsPaid(t, ys, s, a, n, 0);
    StartRate(t[a].channel, ys[a]);
    if n == a + 1 {
      b := a;
    } else if Going(s, Paid(ys, s, a, n - 1), Chunks(ys, a, n - 1)) {
      b := n - 1;
      TravelIsPaid(t, ys, s, a, b, 0);
      forall j | a < j <= b ensures t[j].channel.active.Some? {
        TravelIsPaid(t, ys, s, a, j, 0);
        ScheduleGrows(ys, s, a, j, b);
      }
    } else {
      b := EndIsFound(t, ys, s, a, n - 1);
    }
  }

  /** Whether an increment nobody disturbs is completed by cycle `n`, cut short by
      then, or still running, is decided by the periods alone: it is completed if and
      only if the cycles its count lasts for pay for the distance. */
  lemma ScheduleDecides(t: seq<Servo>, ys: seq<Cycle>, s: Increment, a: nat, n: nat)
    requires Execution(t, ys) && a < n <= |ys| && Begins(t[a], ys[a], s) && NothingAsked(ys, a, n)
    ensures (exists b | a <= b < n :: EndsInFull(t, ys, a, b)) <==> Paid(ys, s, a, n) >= s.remaining
    ensures (exists b | a <= b < n :: EndsCutShort(t, ys, a, b)) <==>
            Paid(ys, s, a, n) < s.remaining && Chunks(ys, a, n) > CountLimit(s)
  {
    StartRate(t[a].channel, ys[a]);
    hide Execution, Begins, Ends, CutShort, Paid, Chunks;
    forall b | a <= b < n && Ends(t, ys, a, b)
      ensures CutShort(t, ys, a, b) <==> Paid(ys, s, a, n) < s.remaining
      ensures CutShort(t, ys, a, b) ==> Chunks(ys, a, n) > CountLimit(s)
    {
      assert NothingAsked(ys, a, b + 1);
      EndIsScheduled(t, ys, s, a, b);
      ScheduleGrows(ys, s, a, b + 1, n);
    }
    if !Going(s, Paid(ys, s, a, n), Chunks(ys, a, n)) {
      var b := EndIsFound(t, ys, s, a, n);
      assert EndsInFull(t, ys, a, b) || EndsCutShort(t, ys, a, b);
    }
  }

  // ----------------------------------------------------- an increment cut short

  /** One cycle of 1 ms that asks for the longest distance, then cycles of 0.5 ms. */
  function SlowingSchedule(forward: bool): seq<Cycle> {
    var distance := if forward then 2147483647.0 else -2147483647.0;
    var command := JogIncrement(JogCommand(Pendant.AxisX, AxisTeleop, Finite(distance), 60));
    [Cycle(1_000_000, false, Some(command))] + seq(0x8000_0000, _ => Cycle(500_000, false, None))
  }

  lemma {:induction false} SlowingPays(ys: seq<Cycle>, s: Increment, n: nat)
    requires 1 <= n <= |ys| && s.pulsesPerSecond == 1000.0
    requires ys[0].period == 1_000_000 && forall k | 1 <= k < |ys| :: ys[k].period == 500_000
    ensures Chunks(ys, 0, n) == n && Paid(ys, s, 0, n) <= 1.0 + 0.5 * (n - 1) as real
  {
    if n == 1 {
      assert Chunks(ys, 0, 0) == 0 && Paid(ys, s, 0, 0) == 0.0;
      assert s.Budget(1_000_000) == 1.0;
    } else {
      SlowingPays(ys, s, n - 1);
      assert s.Budget(500_000) == 0.5;
    }
  }

  /** That an increment is accepted does not exclude it: one accepted at a period of
      1 ms, with the longest distance allowed there, ends early in either direction
      when the period is 0.5 ms from then on. */
  lemma ShorterPeriodsCutShort(forward: bool) returns (t: seq<Servo>, b: nat)
    ensures var ys := SlowingSchedule(forward);
            && Execution(t, ys) && NothingAsked(ys, 0, |ys|)
            && (forall k | 0 <= k < |ys| :: ys[k].period > 0)
            && EndsCutShort(t, ys, 0, b)
  {
    var ys := SlowingSchedule(forward);
    t := EveryScheduleRuns(Servo(NEW_CHANNEL, NO_COUNTS, NO_SCALES), ys);
    SlowingStarts(forward);
    var s := Started(ys[0]);
    EveryStateIsWired(t, ys, 0);
    assert Begins(t[0], ys[0], s);
    SlowingPays(ys, s, |ys|);
    hide SlowingSchedule, Execution, Begins, Started;
    ScheduleDecides(t, ys, s, 0, |ys|);
    b :| 0 <= b < |ys| && EndsCutShort(t, ys, 0, b);
  }

  lemma SlowingStarts(forward: bool)
    ensures var ys := SlowingSchedule(forward);
            && Starts(NEW_CHANNEL, ys[0])
            && Started(ys[0]).pulsesPerSecond == 1000.0 && Started(ys[0]).remaining == 2147483647.0
  {
    var y := SlowingSchedule(forward)[0];
    var s := Schedule(y.command.value.command, Pendant.PULSES_PER_MM);
    assert s.Budget(1_000_000) == 1.0;
    assert s.remaining / 1.0 == s.remaining;
  }

  // -------------------------------------------------------------- constant period

  lemma QuotientOrder(d: real, b: real, j: nat)
    requires b > 0.0
    ensures j as real < d / b <==> j as real * b < d
  {
    var q := d / b;
    assert d == q * b;
    var x := j as real;
    if x < q {
      ProductIsPositive(q - x, b);
      assert (q - x) * b == q * b - x * b;
    } else if x > q {
      ProductIsPositive(x - q, b);
      assert (x - q) * b == x * b - q * b;
    }
  }

  lemma {:induction false} SteadyPay(ys: seq<Cycle>, s: Increment, a: nat, j: nat, period: c_long, b: real)
    requires a + j <= |ys| && j <= CountLimit(s) && period > 0 && b == s.Budget(period)
    requires forall k | a <= k < a + j :: ys[k].period == period
    ensures Chunks(ys, a, a + j) == j && Paid(ys, s, a, a + j) == j as real * b
  {
    hide Increment.Budget;
    if j > 0 {
      SteadyPay(ys, s, a, j - 1, period, b);
      assert j as real * b == (j - 1) as real * b + b;
    }
  }

  /** What is accepted needs no more cycles of its first period than the count lasts. */
  lemma CountSuffices(c: Channel, y: Cycle, n: nat)
    requires Sound(c) && Starts(c, y) && n >= 1
    requires (n - 1) as real * Started(y).Budget(y.period) < Started(y).remaining
    ensures n <= 0x7fff_ffff <= CountLimit(Started(y))
  {
    StartIsPositive(c, y);
    var s := Started(y);
    assert s.remaining / s.Budget(y.period) <= I32_MAX as real;
    QuotientOrder(s.remaining, s.Budget(y.period), n - 1);
  }

  /** The j-th of `n` chunks is out; the last leaves nothing to run. */
  predicate ChunkAt(t: seq<Servo>, a: nat, s: Increment, j: nat, n: nat) {
    && a + j < |t| && ChunkOut(t[a + j].channel, s, j)
    && !t[a + j].channel.Ready() && (t[a + j].channel.active.None? <==> j == n)
  }

  /** The schedule of a constant period, where nothing else is asked. */
  predicate Steady(ys: seq<Cycle>, a: nat, n: nat, period: c_long) {
    NothingAsked(ys, a, n) && forall k | a <= k < n :: ys[k].period == period
  }

  /** `n` is the least number of budgets that cover the distance. */
  predicate Covers(s: Increment, b: real, n: nat) {
    b > 0.0 && n >= 1 && (n - 1) as real * b < s.remaining <= n as real * b
  }

  function CyclesNeeded(distance: real, budget: real): int
    requires budget > 0.0
  {
    -(-distance / budget).Floor
  }

  /** The quotient rounded up is the one number of budgets that covers the distance
      while one fewer does not. */
  lemma CyclesNeededIsLeast(s: Increment, b: real, n: nat)
    requires b > 0.0 && s.remaining > 0.0
    ensures Covers(s, b, n) <==> n == CyclesNeeded(s.remaining, b)
  {
    var q := s.remaining / b;
    assert -s.remaining / b == -q;
    assert n == CyclesNeeded(s.remaining, b) <==> n as real - 1.0 < q <= n as real;
    if n >= 1 {
      QuotientOrder(s.remaining, b, n - 1);
    }
    QuotientOrder(s.remaining, b, n);
    QuotientOrder(s.remaining, b, 0);
  }

  lemma SteadyGoing(ys: seq<Cycle>, s: Increment, a: nat, j: nat, period: c_long, n: nat)
    requires Steady(ys, a, a + j, period) && period > 0 && s.pulsesPerSecond > 0.0
    requires Covers(s, s.Budget(period), n) && j <= n <= CountLimit(s)
    ensures Chunks(ys, a, a + j) == j
    ensures Going(s, Paid(ys, s, a, a + j), j) <==> j < n
  {
    SteadyPay(ys, s, a, j, period, s.Budget(period));
    hide Increment.Budget, Chunks, Paid, Steady;
    CoveredExactly(s, s.Budget(period), n, j);
  }

  lemma CoveredExactly(s: Increment, b: real, n: nat, j: nat)
    requires Covers(s, b, n) && j <= n
    ensures j as real * b < s.remaining <==> j < n
  {
    if j < n {
      MultiplesGrow(j, n - 1, b);
    }
  }

  lemma OutIsBusy(c: Channel, s: Increment, j: nat)
    requires ChunkOut(c, s, j)
    ensures !c.Ready()
  {
  }

  /** At a constant period an increment that nothing disturbs publishes one chunk in
      each of exactly n = ceil(|distance| / budget) cycles, counting up to n without
      ever overflowing; the next advance rebases, and the one after leaves the
      channel ready, not before. */
  lemma IncrementTakesExactly(t: seq<Servo>, ys: seq<Cycle>, a: nat, period: c_long, s: Increment, n: nat)
    requires Execution(t, ys) && a + n + 2 <= |ys| && period > 0
    requires Begins(t[a], ys[a], s) && Covers(s, s.Budget(period), n) && Steady(ys, a, a + n + 2, period)
    ensures forall j | 1 <= j <= n :: ChunkAt(t, a, s, j, n)
    ensures Rested(t[a + n].channel, t[a + n + 1].channel, t[a + n + 2].channel)
  {
    CountSuffices(t[a].channel, ys[a], n);
    assert Steps(t, ys, a + n) && Steps(t, ys, a + n + 1);
    hide Increment.Budget, ChunkOut, Sound, Covers, Begins, Served;
    forall j | 1 <= j <= n ensures ChunkAt(t, a, s, j, n) {
      SteadyChunk(t, ys, a, period, s, n, j);
    }
    hide Execution;
    assert ChunkAt(t, a, s, n, n);
    StepServes(t[a + n], ys[a + n]);
    StepServes(t[a + n + 1], ys[a + n + 1]);
    TwoAdvances(t[a + n].channel, ys[a + n], ys[a + n + 1], s, n);
  }

  /** The j-th cycle of an increment that was still going before it publishes. */
  lemma NextIsOut(t: seq<Servo>, ys: seq<Cycle>, s: Increment, a: nat, j: nat)
    requires Execution(t, ys) && a < a + j <= |ys| && Begins(t[a], ys[a], s) && NothingAsked(ys, a, a + j)
    requires j > 1 ==> Going(s, Paid(ys, s, a, a + j - 1), j - 1)
    requires Chunks(ys, a, a + j - 1) == j - 1 < CountLimit(s) && ys[a + j - 1].period > 0
    ensures ChunkOut(t[a + j].channel, s, j)
  {
    hide Increment.Budget, Going, CountLimit, ChunkOut, Chunks, Paid;
    StartRate(t[a].channel, ys[a]);
    if j == 1 {
      FirstOnSchedule(t, ys, s, a, 0);
    } else {
      TravelIsPaid(t, ys, s, a, a + j - 1, 0);
      hide OnSchedule, Execution, Begins, Wired;
      LaterOnSchedule(t, ys, s, a, a + j - 1, 0);
    }
  }

  lemma SteadyChunk(t: seq<Servo>, ys: seq<Cycle>, a: nat, period: c_long, s: Increment, n: nat, j: nat)
    requires Execution(t, ys) && a < a + n <= |ys| && period > 0
    requires Begins(t[a], ys[a], s) && Covers(s, s.Budget(period), n) && Steady(ys, a, a + n, period)
    requires 1 <= j <= n <= CountLimit(s)
    ensures ChunkAt(t, a, s, j, n)
  {
    StartRate(t[a].channel, ys[a]);
    hide Increment.Budget, Covers, CountLimit, ChunkOut, Chunks, Paid, Going, Execution, Begins;
    assert |t| == |ys| + 1 && NothingAsked(ys, a, a + j) by {
      assert Execution(t, ys);
    }
    SteadyGoing(ys, s, a, j, period, n);
    SteadyGoing(ys, s, a, j - 1, period, n);
    assert ys[a + j - 1].period == period;
    hide Steady;
    NextIsOut(t, ys, s, a, j);
    TravelIsPaid(t, ys, s, a, a + j, 0);
    OutIsBusy(t[a + j].channel, s, j);
  }

  lemma MultiplesGrow(i: nat, j: nat, b: real)
    requires b > 0.0
    ensures i <= j ==> i as real * b <= j as real * b
  {
    if i < j {
      ProductIsPositive((j - i) as real, b);
      assert (j - i) as real * b == j as real * b - i as real * b;
    }
  }

  /** The last chunk, the rebase to zero while disabled, and the ready channel. */
  predicate Rested(last: Channel, rebase: Channel, ready: Channel) {
    && last.active.None? && last.phase.JogCount? && !last.Ready()
    && rebase.phase.Rebase? && rebase.counts == NO_COUNTS && rebase.enables == NO_ENABLES && !rebase.Ready()
    && ready.Ready() && ready.counts == NO_COUNTS
  }

  lemma TwoAdvances(c: Channel, y: Cycle, z: Cycle, s: Increment, n: nat)
    requires ChunkOut(c, s, n) && c.active.None?
    requires y.period > 0 && !y.clear && y.command.None?
    requires z.period > 0 && !z.clear && z.command.None?
    ensures Rested(c, Served(c, y), Served(Served(c, y), z))
  {
  }
}
