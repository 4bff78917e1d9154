/** The controller over whole runs of servo cycles: how a silent link and a silent task
    monitor time out. */
module RuntimeRuns {
  import opened Words
  import opened Pendant
  import opened Startup
  import opened Runtime
  import opened RuntimeCalls

  datatype Turn = Turn(periodNs: u64, inputs: Inputs, answers: Answers)

  function After(turns: seq<Turn>): Controller {
    if turns == [] then NEW_CONTROLLER
    else
      var last := turns[|turns| - 1];
      Update(After(turns[..|turns| - 1]), last.periodNs, last.inputs, last.answers).after
  }

  lemma {:induction false} EveryReachableControllerIsConsistent(turns: seq<Turn>)
    ensures Consistent(After(turns))
  {
    if turns != [] {
      var n := |turns| - 1;
      EveryReachableControllerIsConsistent(turns[..n]);
      ConsistencyIsKept(After(turns[..n]), turns[n].periodNs, turns[n].inputs, turns[n].answers);
    }
  }

  /** The last operator clear that was taken up. */
  function LastClear(turns: seq<Turn>): u32 {
    if turns == [] then 0 else turns[|turns| - 1].inputs.clearFaultRequest
  }

  /** The cycle after `turns` samples its inputs: it sees no new operator clear. */
  predicate Samples(turns: seq<Turn>, i: Inputs) {
    i.clearFaultRequest == LastClear(turns)
  }

  /** The read is whole, and the link it shows is up. */
  predicate ReadsLink(i: Inputs) {
    i.coherent && i.connected && !i.serialFault
  }

  predicate ReadsTask(i: Inputs) {
    i.taskMonitorConnected && !i.taskMonitorFault
  }

  /** What a cycle can read: the pendant's sequence number, or the task's heartbeat. */
  datatype Source = Pendant | Task

  function Read(source: Source, i: Inputs): Option<u32> {
    match source
    case Pendant => if ReadsLink(i) then Some(i.sample.sequence) else None
    case Task => if ReadsTask(i) then Some(i.taskHeartbeat) else None
  }

  /** The value that was read last. */
  function LastRead(source: Source, turns: seq<Turn>): Option<u32> {
    if turns == [] then None
    else
      var n := |turns| - 1;
      var i := turns[n].inputs;
      if Samples(turns[..n], i) && Read(source, i).Some? then Read(source, i) else LastRead(source, turns[..n])
  }

  /** Servo time, in sampling cycles, since a new value was read. */
  function SilentFor(source: Source, turns: seq<Turn>): Option<nat> {
    if turns == [] then None
    else
      var n := |turns| - 1;
      var i, before := turns[n].inputs, SilentFor(source, turns[..n]);
      if !Samples(turns[..n], i) then before
      else if Read(source, i).Some? && LastRead(source, turns[..n]) != Read(source, i) then Some(0)
      else if before.None? then None
      else Some(before.value + turns[n].periodNs)
  }

  function Saturated(n: nat): u64 {
    if n > U64_MAX then U64_MAX else n
  }

  /** The controller's age of the link is the silent time. */
  predicate Aged(age: Age, sequence: Option<u32>, silent: Option<nat>) {
    && age.initialized == sequence.Some? == silent.Some?
    && (age.initialized ==> sequence == Some(age.lastValue) && age.ageNs == Saturated(silent.value))
  }

  lemma FreshnessStep(c: Controller, periodNs: u64, i: Inputs, a: Answers)
    requires Consistent(c)
    ensures var t := Update(c, periodNs, i, a).after;
            && t.clearFaultAck == i.clearFaultRequest
            && t.pendantFreshness ==
               (if Preempts(c, i) then c.pendantFreshness
                else if ReadsLink(i) then c.pendantFreshness.Update(i.sample.sequence, periodNs)
                else c.pendantFreshness.Elapse(periodNs))
            && t.taskFreshness ==
               (if Preempts(c, i) then c.taskFreshness
                else if ReadsTask(i) then c.taskFreshness.Update(i.taskHeartbeat, periodNs)
                else c.taskFreshness.Elapse(periodNs))
  {
    OutputsExactly(c, periodNs, i, a);
    if Preempts(c, i) {
      PreemptingCycle(c, periodNs, i, a);
    } else {
      SettledKeeps(c.Sampled(periodNs, i), periodNs, i, a, Rising(c, i) && a.faultRetained);
      hide AfterSampling;
    }
  }

  lemma AgeStep(age: Age, sequence: Option<u32>, silent: Option<nat>, value: u32, periodNs: u64)
    requires Aged(age, sequence, silent)
    ensures Aged(age.Update(value, periodNs), Some(value),
                 if sequence != Some(value) then Some(0) else Some(silent.value + periodNs))
    ensures Aged(age.Elapse(periodNs), sequence, if silent.None? then None else Some(silent.value + periodNs))
  {
  }

  function AgeOf(source: Source, c: Controller): Age {
    match source case Pendant => c.pendantFreshness case Task => c.taskFreshness
  }

  lemma {:induction false} FreshnessIsSilence(source: Source, turns: seq<Turn>)
    ensures After(turns).clearFaultAck == LastClear(turns)
    ensures Aged(AgeOf(source, After(turns)), LastRead(source, turns), SilentFor(source, turns))
  {
    if turns != [] {
      var n := |turns| - 1;
      var c := After(turns[..n]);
      FreshnessIsSilence(source, turns[..n]);
      EveryReachableControllerIsConsistent(turns[..n]);
      FreshnessStep(c, turns[n].periodNs, turns[n].inputs, turns[n].answers);
      hide Update, Age.Update, Age.Elapse, Aged;
      var value := if source.Pendant? then turns[n].inputs.sample.sequence else turns[n].inputs.taskHeartbeat;
      AgeStep(AgeOf(source, c), LastRead(source, turns[..n]), SilentFor(source, turns[..n]), value,
              turns[n].periodNs);
    }
  }

  /** A committed controller that no E-stop and no recovery excuses reports a link that
      shows up and faultless as timed out exactly when no new sequence number was read
      for 100 ms of servo time. */
  lemma LinkTimesOut(turns: seq<Turn>, turn: Turn)
    requires Ordinary(After(turns), turn.periodNs, turn.inputs, turn.answers)
    ensures var c, i, all := After(turns), turn.inputs, turns + [turn];
            Fail(PacketTimedOut) in Update(c, turn.periodNs, i, turn.answers).calls <==>
            && Guarding(c, i, turn.answers)
            && Connected(c, i) && !SerialFaulted(c, i) && !QuadratureFaulted(c, i)
            && (SilentFor(Pendant, all).None? || SilentFor(Pendant, all).value >= 100_000_000)
  {
    var c, i := After(turns), turn.inputs;
    EveryReachableControllerIsConsistent(turns);
    FreshnessIsSilence(Pendant, turns);
    FaultsExactly(c, turn.periodNs, i, turn.answers, PacketTimedOut);
    hide Update, After;
    SilenceIsRead(c, turns, turn);
  }

  lemma SilenceIsRead(c: Controller, turns: seq<Turn>, turn: Turn)
    requires !Preempts(c, turn.inputs) && c.clearFaultAck == LastClear(turns)
    requires Aged(c.pendantFreshness, LastRead(Pendant, turns), SilentFor(Pendant, turns))
    ensures var silent := SilentFor(Pendant, turns + [turn]);
            Silent(c, turn.periodNs, turn.inputs) <==> silent.None? || silent.value >= 100_000_000
  {
    assert (turns + [turn])[..|turns|] == turns;
  }

  /** The task monitor counts as alive exactly while it is read and its heartbeat moved
      within the last 100 ms of servo time. */
  lemma TaskTimesOut(turns: seq<Turn>, turn: Turn)
    requires Samples(turns, turn.inputs)
    ensures var silent := SilentFor(Task, turns + [turn]);
            TaskAlive(After(turns), turn.periodNs, turn.inputs) <==>
            ReadsTask(turn.inputs) && silent.Some? && silent.value < 100_000_000
  {
    FreshnessIsSilence(Task, turns);
    hide After;
    assert (turns + [turn])[..|turns|] == turns;
  }
}
