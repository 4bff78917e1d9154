/** Loading and running programs: what is commanded, and on what evidence.

    Backend and file system answer arbitrarily, and may answer differently at
    every call; the trace records each call with its answer. */
module Dispatch {
  import opened Words
  import opened ScriptValues
  import ScriptHeader

  type Path = string

  datatype MachineState = Estop | EstopReset | Off | On

  datatype TaskMode = Manual | Auto | Mdi

  datatype Status = Status(
    machineState: MachineState,
    auxiliaryEstop: bool,
    taskMode: TaskMode,
    interpreterIdle: bool,
    allHomed: bool,
    loadedFile: Path)

  datatype Program = CatalogProgram(path: Path) | InspectedScript(path: Path)

  /** A command is logged with the request it serves. */
  datatype Event =
    | StatusRead(answer: Option<Status>)
    | Compared(expected: Path, observed: Path, same: bool)
    | Revalidated(path: Path, intact: bool)
    | Closed(program: Program, ok: bool)
    | Opened(program: Program, ok: bool)
    | AutoSet(program: Program, prerequisites: seq<Prerequisite>, ok: bool)
    | Ran(program: Program, prerequisites: seq<Prerequisite>, ok: bool)

  datatype DispatchError =
    | Native
    | Script
    | LoadWhileInterpreterActive
    | LoadedFileMismatch
    | RunRequiresExactLoadedProgram
    | Unsatisfied(prerequisite: Prerequisite)

  datatype Outcome = Done | Failed(error: DispatchError)

  // --------------------------------------------------------------- prerequisites

  predicate Satisfied(p: Prerequisite, status: Status, physicalEstopPressed: Option<bool>) {
    match p
    case DesktopSession => false
    case RunningSession => true
    case PhysicalEstopReleased => physicalEstopPressed == Some(false)
    case EstopClear => !status.machineState.Estop? && !status.auxiliaryEstop
    case MachineOn => status.machineState.On?
    case InterpreterIdle => status.interpreterIdle
    case AllHomed => status.allHomed
  }

  predicate AllSatisfied(prerequisites: seq<Prerequisite>, status: Status) {
    forall p <- prerequisites :: Satisfied(p, status, None)
  }

  method CheckPrerequisiteValues(prerequisites: seq<Prerequisite>, status: Status, physicalEstopPressed: Option<bool>)
    returns (outcome: Outcome)
    ensures outcome.Done? <==> forall p <- prerequisites :: Satisfied(p, status, physicalEstopPressed)
    ensures outcome.Failed? ==> exists i | 0 <= i < |prerequisites| ::
              && outcome.error == Unsatisfied(prerequisites[i])
              && !Satisfied(prerequisites[i], status, physicalEstopPressed)
              && forall j | 0 <= j < i :: Satisfied(prerequisites[j], status, physicalEstopPressed)
  {
    for i := 0 to |prerequisites|
      invariant forall j | 0 <= j < i :: Satisfied(prerequisites[j], status, physicalEstopPressed)
    {
      if !Satisfied(prerequisites[i], status, physicalEstopPressed) {
        assert prerequisites[i] in prerequisites;
        return Failed(Unsatisfied(prerequisites[i]));
      }
    }
    return Done;
  }

  /** A header may require exactly what some status satisfies while the switch is unread. */
  lemma HeadersRequireWhatCanHold(p: Prerequisite)
    ensures ParsePrerequisite(PrerequisiteName(p)).Ok? <==> exists status :: Satisfied(p, status, None)
  {
    var ready := Status(On, false, Auto, true, true, "");
    if p !in {DesktopSession, PhysicalEstopReleased} {
      assert Satisfied(p, ready, None);
    }
  }

  /** A program without a header runs only on a homed, idle machine that is on. */
  lemma HeaderlessRunNeeds(status: Status)
    ensures AllSatisfied(ScriptHeader.CONSERVATIVE.prerequisites, status) <==>
            status.machineState == On && !status.auxiliaryEstop && status.interpreterIdle && status.allHomed
  {
    var needs := ScriptHeader.CONSERVATIVE.prerequisites;
    assert needs == [RunningSession, EstopClear, MachineOn, InterpreterIdle, AllHomed];
    if AllSatisfied(needs, status) {
      assert EstopClear in needs && MachineOn in needs && InterpreterIdle in needs && AllHomed in needs;
    }
  }

  /** A machine merely reset is clear of E-stop; the pendant switch must be read and released. */
  lemma EstopBlocks(status: Status, physicalEstopPressed: Option<bool>)
    ensures Satisfied(EstopClear, status, physicalEstopPressed) <==>
            status.machineState in {EstopReset, Off, On} && !status.auxiliaryEstop
    ensures Satisfied(PhysicalEstopReleased, status, physicalEstopPressed) <==> physicalEstopPressed == Some(false)
  {
  }

  // -------------------------------------------------------------- what is safe

  predicate IsCommand(e: Event) {
    e.Closed? || e.Opened? || e.AutoSet? || e.Ran?
  }

  function Commands(trace: seq<Event>): seq<Event> {
    if trace == [] then []
    else
      var before := Commands(trace[..|trace| - 1]);
      if IsCommand(trace[|trace| - 1]) then before + [trace[|trace| - 1]] else before
  }

  lemma CommandsSnoc(calls: seq<Event>, e: Event)
    ensures Commands(calls + [e]) == if IsCommand(e) then Commands(calls) + [e] else Commands(calls)
  {
    assert (calls + [e])[..|calls|] == calls;
  }

  function Revalidation(program: Program, ok: bool): seq<Event> {
    if program.InspectedScript? then [Revalidated(program.path, ok)] else []
  }

  /** What allows a close: an idle interpreter, and the script as it was inspected. */
  function Cleared(program: Program, status: Status): seq<Event> {
    [StatusRead(Some(status))] + Revalidation(program, true)
  }

  /** What allows an open: all that allowed the close, its success, and the script
      still as it was inspected. */
  function Replaceable(program: Program, status: Status): seq<Event> {
    Cleared(program, status) + [Closed(program, true)] + Revalidation(program, true)
  }

  /** That this very program is loaded, and the script is as it was inspected. */
  function LoadedEvidence(program: Program, status: Status): seq<Event> {
    [StatusRead(Some(status)), Compared(program.path, status.loadedFile, true)] + Revalidation(program, true)
  }

  predicate MayRun(prerequisites: seq<Prerequisite>, status: Status) {
    status.loadedFile != "" && AllSatisfied(prerequisites, status)
  }

  /** These calls, made directly before command `e`, justify it. */
  predicate Justifies(evidence: seq<Event>, e: Event) {
    && evidence != [] && evidence[0].StatusRead? && evidence[0].answer.Some?
    && var status := evidence[0].answer.value;
    match e
    case Closed(program, _) => status.interpreterIdle && evidence == Cleared(program, status)
    case Opened(program, _) => status.interpreterIdle && evidence == Replaceable(program, status)
    case AutoSet(program, prerequisites, _) =>
      !status.taskMode.Auto? && MayRun(prerequisites, status) && evidence == LoadedEvidence(program, status)
    case Ran(program, prerequisites, _) =>
      MayRun(prerequisites, status) && evidence == LoadedEvidence(program, status)
    case _ => false
  }

  predicate Justified(trace: seq<Event>, k: nat)
    requires k < |trace|
  {
    IsCommand(trace[k]) ==> exists n | 0 <= n <= k :: Justifies(trace[n..k], trace[k])
  }

  predicate AllJustified(trace: seq<Event>) {
    forall k | 0 <= k < |trace| :: Justified(trace, k)
  }

  lemma JustifiedConcat(a: seq<Event>, b: seq<Event>)
    requires AllJustified(a) && AllJustified(b)
    ensures AllJustified(a + b)
  {
    hide Justifies;
    forall k | 0 <= k < |a + b| ensures Justified(a + b, k) {
      if k < |a| {
        assert Justified(a, k) && (a + b)[k] == a[k];
        forall n | 0 <= n <= k ensures (a + b)[n..k] == a[n..k] {
        }
      } else if IsCommand((a + b)[k]) {
        var i := k - |a|;
        assert Justified(b, i) && (a + b)[k] == b[i];
        var n :| 0 <= n <= i && Justifies(b[n..i], b[i]);
        assert (a + b)[|a| + n..k] == b[n..i];
      }
    }
  }

  lemma NothingCommanded(calls: seq<Event>)
    requires forall k | 0 <= k < |calls| :: !IsCommand(calls[k])
    ensures AllJustified(calls)
  {
  }

  lemma QuietStep(calls: seq<Event>, e: Event)
    requires AllJustified(calls) && !IsCommand(e)
    ensures AllJustified(calls + [e])
  {
    NothingCommanded([e]);
    JustifiedConcat(calls, [e]);
  }

  lemma CommandStep(calls: seq<Event>, n: nat, e: Event)
    requires AllJustified(calls) && n <= |calls| && Justifies(calls[n..], e)
    ensures AllJustified(calls + [e])
  {
    hide Justifies;
    var all := calls + [e];
    forall k | 0 <= k < |all| ensures Justified(all, k) {
      if k < |calls| {
        assert Justified(calls, k) && all[k] == calls[k];
        forall n | 0 <= n <= k ensures all[n..k] == calls[n..k] {
        }
      } else {
        assert all[n..k] == calls[n..];
      }
    }
  }

  // ------------------------------------------------------------ the environment

  /** The calls since the operation began, and all calls before. */
  class Environment {
    ghost var past: seq<Event>
    ghost var calls: seq<Event>

    constructor ()
      ensures past == [] && calls == []
    {
      past, calls := [], [];
    }

    ghost method Begin()
      modifies this
      ensures past == old(past) + old(calls) && calls == []
    {
      past, calls := past + calls, [];
    }

    ghost method Log(e: Event)
      modifies this`calls
      ensures calls == old(calls) + [e]
      ensures Commands(calls) == Commands(old(calls)) + if IsCommand(e) then [e] else []
      ensures AllJustified(old(calls)) && !IsCommand(e) ==> AllJustified(calls)
    {
      CommandsSnoc(calls, e);
      if AllJustified(calls) && !IsCommand(e) {
        QuietStep(calls, e);
      }
      calls := calls + [e];
    }

    method ReadStatus() returns (answer: Option<Status>)
      modifies this`calls
      ensures calls == old(calls) + [StatusRead(answer)] && Commands(calls) == Commands(old(calls))
      ensures AllJustified(old(calls)) ==> AllJustified(calls)
    {
      answer := *;
      Log(StatusRead(answer));
    }

    /** `same_file`: an empty observed path is never the same; otherwise the file
        system decides, at the time of the call. */
    method SameFile(expected: Path, observed: Path) returns (same: bool)
      modifies this`calls
      ensures calls == old(calls) + [Compared(expected, observed, same)] && Commands(calls) == Commands(old(calls))
      ensures AllJustified(old(calls)) ==> AllJustified(calls)
      ensures observed == "" ==> !same
    {
      same := *;
      if observed == "" {
        same := false;
      }
      Log(Compared(expected, observed, same));
    }

    /** An inspected script is opened again and compared; a catalog program is not. */
    method Revalidate(program: Program) returns (ok: bool)
      modifies this`calls
      ensures program.CatalogProgram? ==> ok
      ensures calls == old(calls) + Revalidation(program, ok) && Commands(calls) == Commands(old(calls))
      ensures AllJustified(old(calls)) ==> AllJustified(calls)
    {
      ok := true;
      if program.InspectedScript? {
        ok := *;
        Log(Revalidated(program.path, ok));
      } else {
        assert calls + [] == calls;
      }
    }

    method ProgramClose(ghost program: Program) returns (ok: bool)
      modifies this`calls
      ensures calls == old(calls) + [Closed(program, ok)]
      ensures Commands(calls) == Commands(old(calls)) + [Closed(program, ok)]
    {
      ok := *;
      Log(Closed(program, ok));
    }

    method ProgramOpen(program: Program) returns (ok: bool)
      modifies this`calls
      ensures calls == old(calls) + [Opened(program, ok)]
      ensures Commands(calls) == Commands(old(calls)) + [Opened(program, ok)]
    {
      ok := *;
      Log(Opened(program, ok));
    }

    method SetAutoMode(ghost program: Program, ghost prerequisites: seq<Prerequisite>) returns (ok: bool)
      modifies this`calls
      ensures calls == old(calls) + [AutoSet(program, prerequisites, ok)]
      ensures Commands(calls) == Commands(old(calls)) + [AutoSet(program, prerequisites, ok)]
    {
      ok := *;
      Log(AutoSet(program, prerequisites, ok));
    }

    method ProgramRun(ghost program: Program, ghost prerequisites: seq<Prerequisite>) returns (ok: bool)
      modifies this`calls
      ensures calls == old(calls) + [Ran(program, prerequisites, ok)]
      ensures Commands(calls) == Commands(old(calls)) + [Ran(program, prerequisites, ok)]
    {
      ok := *;
      Log(Ran(program, prerequisites, ok));
    }
  }

  // -------------------------------------------------------------- the operations

  predicate IsClose(e: Event, program: Program) {
    e.Closed? && e.program == program
  }

  predicate IsOpen(e: Event, program: Program) {
    e.Opened? && e.program == program
  }

  predicate IsAutoSet(e: Event, program: Program, prerequisites: seq<Prerequisite>) {
    e.AutoSet? && e.program == program && e.prerequisites == prerequisites
  }

  predicate IsRun(e: Event, program: Program, prerequisites: seq<Prerequisite>) {
    e.Ran? && e.program == program && e.prerequisites == prerequisites
  }

  /** Close, then open: as far as the answers let it get. */
  predicate LoadCommands(commands: seq<Event>, program: Program) {
    && |commands| <= 2
    && (|commands| >= 1 ==> IsClose(commands[0], program))
    && (|commands| == 2 ==> commands[0].ok && IsOpen(commands[1], program))
  }

  /** The mode change, needed or not, then the run: as far as the answers let it get. */
  predicate RunCommands(commands: seq<Event>, program: Program, prerequisites: seq<Prerequisite>) {
    && |commands| <= 2
    && (|commands| == 1 ==>
          IsAutoSet(commands[0], program, prerequisites) || IsRun(commands[0], program, prerequisites))
    && (|commands| == 2 ==>
          && IsAutoSet(commands[0], program, prerequisites) && commands[0].ok
          && IsRun(commands[1], program, prerequisites))
  }

  predicate IsLoaded(evidence: seq<Event>, program: Program) {
    && evidence != [] && evidence[0].StatusRead? && evidence[0].answer.Some?
    && evidence[0].answer.value.loadedFile != "" && evidence == LoadedEvidence(program, evidence[0].answer.value)
  }

  predicate IsFirstUnsatisfied(prerequisites: seq<Prerequisite>, status: Status, p: Prerequisite) {
    exists i | 0 <= i < |prerequisites| ::
      && prerequisites[i] == p && !Satisfied(p, status, None)
      && forall j | 0 <= j < i :: Satisfied(prerequisites[j], status, None)
  }

  /** The status that was answered just before the last call. */
  function StatusBefore(calls: seq<Event>): Option<Status> {
    if |calls| >= 2 && calls[|calls| - 2].StatusRead? then calls[|calls| - 2].answer else None
  }

  /** The last answer is the reason for the error. */
  predicate Explains(calls: seq<Event>, program: Program, prerequisites: seq<Prerequisite>, error: DispatchError) {
    && calls != []
    && var last := calls[|calls| - 1];
    match error
    case Native =>
      || (last.StatusRead? && last.answer.None?)
      || (IsCommand(last) && !last.ok)
    case Script => program.InspectedScript? && last == Revalidated(program.path, false)
    case LoadWhileInterpreterActive =>
      last.StatusRead? && last.answer.Some? && !last.answer.value.interpreterIdle
    case Unsatisfied(p) =>
      && StatusBefore(calls).Some?
      && last == Compared(program.path, StatusBefore(calls).value.loadedFile, true)
      && IsFirstUnsatisfied(prerequisites, StatusBefore(calls).value, p)
    case _ =>
      StatusBefore(calls).Some? && last == Compared(program.path, StatusBefore(calls).value.loadedFile, false)
  }

  /** The calls of one load: what it commands, each command justified; a complete load
      ends in the evidence that this program is loaded, and a failed one has its cause. */
  predicate Loads(calls: seq<Event>, program: Program, outcome: Outcome) {
    && AllJustified(calls)
    && LoadCommands(Commands(calls), program)
    && match outcome
       case Done =>
         && Commands(calls) == [Closed(program, true), Opened(program, true)]
         && exists n | 0 <= n <= |calls| :: IsLoaded(calls[n..], program)
       case Failed(error) =>
         && Explains(calls, program, [], error)
         && (error.LoadWhileInterpreterActive? ==> |calls| == 1)
         && (error.LoadedFileMismatch? ==> Commands(calls) == [Closed(program, true), Opened(program, true)])
         && (error.Native? || error.Script? || error.LoadWhileInterpreterActive? || error.LoadedFileMismatch?)
  }

  /** One complete check: a status that allows the run, and the evidence around it. */
  predicate Checked(calls: seq<Event>, program: Program, prerequisites: seq<Prerequisite>) {
    IsLoaded(calls, program) && MayRun(prerequisites, calls[0].answer.value)
  }

  /** Two complete checks and nothing else, but for the mode change between them exactly
      if the first did not show the automatic mode; the first ends at call `n`. */
  predicate CheckedTwice(calls: seq<Event>, program: Program, prerequisites: seq<Prerequisite>, n: nat) {
    && n <= |calls|
    && Checked(calls[..n], program, prerequisites)
    && if calls[0].answer.value.taskMode.Auto? then Checked(calls[n..], program, prerequisites)
       else
         && n < |calls| && calls[n] == AutoSet(program, prerequisites, true)
         && Checked(calls[n + 1..], program, prerequisites)
  }

  /** The calls of one run: its commands, each of them justified. A run is issued only
      after two complete checks; the request is complete exactly if the run succeeds,
      and a failed one has its cause. */
  predicate Runs(calls: seq<Event>, program: Program, prerequisites: seq<Prerequisite>, outcome: Outcome) {
    && AllJustified(calls)
    && RunCommands(Commands(calls), program, prerequisites)
    && calls != []
    && var k := |calls| - 1;
    && (calls[k].Ran? ==>
          IsRun(calls[k], program, prerequisites)
          && exists n | 0 <= n <= k :: CheckedTwice(calls[..k], program, prerequisites, n))
    && match outcome
       case Done => calls[k] == Ran(program, prerequisites, true)
       case Failed(error) =>
         && Explains(calls, program, prerequisites, error)
         && (error.Native? || error.Script? || error.RunRequiresExactLoadedProgram? || error.Unsatisfied?)
  }

  predicate EndsWithoutRun(calls: seq<Event>) {
    calls != [] && !calls[|calls| - 1].Ran?
  }

  lemma NoStatus(before: seq<Event>, program: Program, prerequisites: seq<Prerequisite>)
    ensures Explains(before + [StatusRead(None)], program, prerequisites, Native)
  {
  }

  lemma CommandFailed(before: seq<Event>, e: Event, program: Program, prerequisites: seq<Prerequisite>)
    requires IsCommand(e) && !e.ok
    ensures Explains(before + [e], program, prerequisites, Native)
  {
  }

  lemma NotIntact(before: seq<Event>, program: Program, prerequisites: seq<Prerequisite>)
    requires program.InspectedScript?
    ensures Explains(before + Revalidation(program, false), program, prerequisites, Script)
    ensures EndsWithoutRun(before + Revalidation(program, false))
  {
  }

  lemma OtherFile(before: seq<Event>, status: Status, program: Program, prerequisites: seq<Prerequisite>)
    ensures var calls := before + [StatusRead(Some(status))] + [Compared(program.path, status.loadedFile, false)];
            && Explains(calls, program, prerequisites, LoadedFileMismatch)
            && Explains(calls, program, prerequisites, RunRequiresExactLoadedProgram)
  {
  }

  lemma Unmet(before: seq<Event>, status: Status, program: Program, prerequisites: seq<Prerequisite>, p: Prerequisite)
    requires IsFirstUnsatisfied(prerequisites, status, p)
    ensures Explains(before + [StatusRead(Some(status))] + [Compared(program.path, status.loadedFile, true)],
                     program, prerequisites, Unsatisfied(p))
  {
    hide IsFirstUnsatisfied;
  }

  lemma CloseIsJustified(calls: seq<Event>, program: Program, answer: Option<Status>, ok: bool)
    requires AllJustified(calls) && answer.Some? && answer.value.interpreterIdle
    requires calls == [] + [StatusRead(answer)] + Revalidation(program, true)
    ensures AllJustified(calls + [Closed(program, ok)])
  {
    hide AllJustified, Revalidation;
    assert [] + [StatusRead(answer)] == [StatusRead(answer)];
    assert calls[0..] == calls;
    CommandStep(calls, 0, Closed(program, ok));
  }

  lemma OpenIsJustified(calls: seq<Event>, program: Program, answer: Option<Status>, ok: bool)
    requires AllJustified(calls) && answer.Some? && answer.value.interpreterIdle
    requires calls == [] + [StatusRead(answer)] + Revalidation(program, true) + [Closed(program, true)]
                      + Revalidation(program, true)
    ensures AllJustified(calls + [Opened(program, ok)])
  {
    hide AllJustified, Revalidation;
    assert [] + [StatusRead(answer)] == [StatusRead(answer)];
    assert calls[0..] == calls;
    CommandStep(calls, 0, Opened(program, ok));
  }

  lemma LoadFails(calls: seq<Event>, program: Program, ok: bool, error: DispatchError)
    requires AllJustified(calls) && Explains(calls, program, [], error)
    requires error.Native? || error.Script?
    requires || Commands(calls) == []
             || Commands(calls) == [] + [Closed(program, ok)]
             || Commands(calls) == [] + [Closed(program, true)] + [Opened(program, ok)]
    ensures Loads(calls, program, Failed(error))
  {
    hide Explains, AllJustified;
  }

  lemma InterpreterActive(calls: seq<Event>, status: Status, program: Program)
    requires !status.interpreterIdle && AllJustified(calls) && Commands(calls) == []
    requires calls == [] + [StatusRead(Some(status))]
    ensures Loads(calls, program, Failed(LoadWhileInterpreterActive))
  {
    hide AllJustified, Commands;
  }

  lemma LoadMismatch(calls: seq<Event>, program: Program)
    requires AllJustified(calls) && Explains(calls, program, [], LoadedFileMismatch)
    requires Commands(calls) == [] + [Closed(program, true)] + [Opened(program, true)]
    ensures Loads(calls, program, Failed(LoadedFileMismatch))
  {
    hide Explains, AllJustified;
  }

  lemma CloseFailed(before: seq<Event>, program: Program)
    ensures Explains(before + [Closed(program, false)], program, [], Native)
  {
    CommandFailed(before, Closed(program, false), program, []);
  }

  lemma OpenFailed(before: seq<Event>, program: Program)
    ensures Explains(before + [Opened(program, false)], program, [], Native)
  {
    CommandFailed(before, Opened(program, false), program, []);
  }

  lemma LoadEnds(calls: seq<Event>, before: seq<Event>, program: Program, answer: Option<Status>)
    requires AllJustified(calls) && Commands(calls) == [] + [Closed(program, true)] + [Opened(program, true)]
    requires answer.Some? && answer.value.loadedFile != ""
    requires calls == before + [StatusRead(answer)] + [Compared(program.path, answer.value.loadedFile, true)]
                      + Revalidation(program, true)
    ensures Loads(calls, program, Done)
  {
    hide AllJustified, Commands, Revalidation;
    assert calls[|before|..] == LoadedEvidence(program, answer.value);
    assert IsLoaded(calls[|before|..], program);
  }

  /** Loading closes, opens, and never runs. */
  method LoadProgramPath(env: Environment, program: Program) returns (outcome: Outcome)
    requires env.calls == []
    modifies env`calls
    ensures Loads(env.calls, program, outcome)
  {
    NothingCommanded(env.calls);
    assert Commands(env.calls) == [];
    hide *;
    var before := env.ReadStatus();
    if before.None? {
      NoStatus([], program, []);
      LoadFails(env.calls, program, false, Native);
      return Failed(Native);
    }
    if !before.value.interpreterIdle {
      InterpreterActive(env.calls, before.value, program);
      return Failed(LoadWhileInterpreterActive);
    }
    ghost var calls := env.calls;
    var intact := env.Revalidate(program);
    if !intact {
      NotIntact(calls, program, []);
      LoadFails(env.calls, program, false, Script);
      return Failed(Script);
    }
    calls := env.calls;
    var ok := env.ProgramClose(program);
    CloseIsJustified(calls, program, before, ok);
    if !ok {
      CloseFailed(calls, program);
      LoadFails(env.calls, program, false, Native);
      return Failed(Native);
    }
    calls := env.calls;
    intact := env.Revalidate(program);
    if !intact {
      NotIntact(calls, program, []);
      LoadFails(env.calls, program, true, Script);
      return Failed(Script);
    }
    calls := env.calls;
    ok := env.ProgramOpen(program);
    OpenIsJustified(calls, program, before, ok);
    if !ok {
      OpenFailed(calls, program);
      LoadFails(env.calls, program, false, Native);
      return Failed(Native);
    }
    ghost var loaded := env.calls;
    var after := env.ReadStatus();
    if after.None? {
      NoStatus(loaded, program, []);
      LoadFails(env.calls, program, true, Native);
      return Failed(Native);
    }
    var same := env.SameFile(program.path, after.value.loadedFile);
    if !same {
      OtherFile(loaded, after.value, program, []);
      LoadMismatch(env.calls, program);
      return Failed(LoadedFileMismatch);
    }
    calls := env.calls;
    intact := env.Revalidate(program);
    if !intact {
      NotIntact(calls, program, []);
      LoadFails(env.calls, program, true, Script);
      return Failed(Script);
    }
    LoadEnds(env.calls, loaded, program, after);
    return Done;
  }

  // A status, the comparison with its file, the prerequisites, and a revalidation.
  method Establish(env: Environment, program: Program, prerequisites: seq<Prerequisite>)
    returns (outcome: Outcome, status: Option<Status>)
    requires AllJustified(env.calls)
    modifies env`calls
    ensures AllJustified(env.calls) && Commands(env.calls) == Commands(old(env.calls))
    ensures match outcome
            case Done =>
              && status.Some? && MayRun(prerequisites, status.value)
              && env.calls == old(env.calls) + LoadedEvidence(program, status.value)
            case Failed(error) =>
              && EndsWithoutRun(env.calls) && Explains(env.calls, program, prerequisites, error)
              && (error.Native? || error.Script? || error.RunRequiresExactLoadedProgram? || error.Unsatisfied?)
  {
    hide AllJustified, Commands, Satisfied, Explains, IsFirstUnsatisfied;
    ghost var before := env.calls;
    status := env.ReadStatus();
    if status.None? {
      NoStatus(before, program, prerequisites);
      return Failed(Native), status;
    }
    var same := env.SameFile(program.path, status.value.loadedFile);
    if !same {
      OtherFile(before, status.value, program, prerequisites);
      return Failed(RunRequiresExactLoadedProgram), status;
    }
    outcome := CheckPrerequisiteValues(prerequisites, status.value, None);
    if outcome.Failed? {
      FirstIsNamed(prerequisites, status.value, outcome);
      Unmet(before, status.value, program, prerequisites, outcome.error.prerequisite);
      return;
    }
    ghost var found := [StatusRead(status), Compared(program.path, status.value.loadedFile, true)];
    ghost var calls := env.calls;
    assert calls == before + found;
    var intact := env.Revalidate(program);
    if !intact {
      NotIntact(calls, program, prerequisites);
      return Failed(Script), status;
    }
    assert env.calls == before + (found + Revalidation(program, true));
    outcome := Done;
  }

  lemma FirstIsNamed(prerequisites: seq<Prerequisite>, status: Status, outcome: Outcome)
    requires outcome.Failed? && exists i | 0 <= i < |prerequisites| ::
               && outcome.error == Unsatisfied(prerequisites[i])
               && !Satisfied(prerequisites[i], status, None)
               && forall j | 0 <= j < i :: Satisfied(prerequisites[j], status, None)
    ensures outcome.error.Unsatisfied? && IsFirstUnsatisfied(prerequisites, status, outcome.error.prerequisite)
  {
    hide Satisfied;
  }

  lemma RunStepIsJustified(before: seq<Event>, calls: seq<Event>, program: Program, prerequisites: seq<Prerequisite>,
                           status: Status, ok: bool)
    requires AllJustified(calls) && MayRun(prerequisites, status) && calls == before + LoadedEvidence(program, status)
    ensures AllJustified(calls + [Ran(program, prerequisites, ok)])
    ensures !status.taskMode.Auto? ==> AllJustified(calls + [AutoSet(program, prerequisites, ok)])
  {
    hide AllJustified;
    assert calls[|before|..] == LoadedEvidence(program, status);
    CommandStep(calls, |before|, Ran(program, prerequisites, ok));
    if !status.taskMode.Auto? {
      CommandStep(calls, |before|, AutoSet(program, prerequisites, ok));
    }
  }

  lemma AutoSetIsNoRun(calls: seq<Event>, program: Program, prerequisites: seq<Prerequisite>, ok: bool)
    ensures EndsWithoutRun(calls + [AutoSet(program, prerequisites, ok)])
  {
  }

  lemma RunFails(calls: seq<Event>, program: Program, prerequisites: seq<Prerequisite>, ok: bool,
                 error: DispatchError)
    requires AllJustified(calls) && Explains(calls, program, prerequisites, error) && EndsWithoutRun(calls)
    requires error.Native? || error.Script? || error.RunRequiresExactLoadedProgram? || error.Unsatisfied?
    requires Commands(calls) == [] || Commands(calls) == [] + [AutoSet(program, prerequisites, ok)]
    ensures Runs(calls, program, prerequisites, Failed(error))
  {
    hide AllJustified, Explains;
  }

  lemma AutoSetFailed(before: seq<Event>, program: Program, prerequisites: seq<Prerequisite>)
    ensures Explains(before + [AutoSet(program, prerequisites, false)], program, prerequisites, Native)
  {
    CommandFailed(before, AutoSet(program, prerequisites, false), program, prerequisites);
  }

  lemma EvidenceIsCheck(program: Program, prerequisites: seq<Prerequisite>, status: Status)
    requires MayRun(prerequisites, status)
    ensures Checked(LoadedEvidence(program, status), program, prerequisites)
    ensures LoadedEvidence(program, status)[0] == StatusRead(Some(status))
  {
  }

  /** Two checks, with the mode change between them if it was needed. */
  lemma TwoChecks(first: seq<Event>, calls: seq<Event>, program: Program, prerequisites: seq<Prerequisite>,
                  status: Status, again: Status)
    requires MayRun(prerequisites, status) && MayRun(prerequisites, again)
    requires first == [] + LoadedEvidence(program, status)
    requires calls == (if status.taskMode.Auto? then first else first + [AutoSet(program, prerequisites, true)])
                      + LoadedEvidence(program, again)
    ensures CheckedTwice(calls, program, prerequisites, |first|)
  {
    EvidenceIsCheck(program, prerequisites, status);
    EvidenceIsCheck(program, prerequisites, again);
    hide LoadedEvidence, Checked, MayRun;
    assert first == LoadedEvidence(program, status);
    assert calls[..|first|] == first && calls[0] == first[0];
    if status.taskMode.Auto? {
      assert calls[|first|..] == LoadedEvidence(program, again);
    } else {
      assert calls[|first| + 1..] == LoadedEvidence(program, again);
    }
  }

  lemma RunEnds(calls: seq<Event>, program: Program, prerequisites: seq<Prerequisite>, n: nat, ok: bool)
    requires AllJustified(calls + [Ran(program, prerequisites, ok)])
    requires n <= |calls| && CheckedTwice(calls, program, prerequisites, n)
    requires var commands := Commands(calls + [Ran(program, prerequisites, ok)]);
             || commands == [] + [Ran(program, prerequisites, ok)]
             || commands == [] + [AutoSet(program, prerequisites, true)] + [Ran(program, prerequisites, ok)]
    ensures Runs(calls + [Ran(program, prerequisites, ok)], program, prerequisites, if ok then Done else Failed(Native))
  {
    hide CheckedTwice, AllJustified;
    var all := calls + [Ran(program, prerequisites, ok)];
    assert all[..|all| - 1] == calls;
    if !ok {
      CommandFailed(calls, Ran(program, prerequisites, false), program, prerequisites);
    }
    hide Explains;
  }

  /** Running issues a run only on fresh evidence, and never opens or closes. */
  method RunProgramPath(env: Environment, program: Program, prerequisites: seq<Prerequisite>)
    returns (outcome: Outcome)
    requires env.calls == []
    modifies env`calls
    ensures Runs(env.calls, program, prerequisites, outcome)
  {
    NothingCommanded(env.calls);
    assert Commands(env.calls) == [];
    hide *;
    var status;
    outcome, status := Establish(env, program, prerequisites);
    if outcome.Failed? {
      RunFails(env.calls, program, prerequisites, false, outcome.error);
      return;
    }
    ghost var first := env.calls;
    if !status.value.taskMode.Auto? {
      var ok := env.SetAutoMode(program, prerequisites);
      RunStepIsJustified([], first, program, prerequisites, status.value, ok);
      AutoSetIsNoRun(first, program, prerequisites, ok);
      if !ok {
        AutoSetFailed(first, program, prerequisites);
        RunFails(env.calls, program, prerequisites, false, Native);
        return Failed(Native);
      }
    }
    ghost var before := env.calls;
    var again;
    outcome, again := Establish(env, program, prerequisites);
    if outcome.Failed? {
      RunFails(env.calls, program, prerequisites, true, outcome.error);
      return;
    }
    ghost var calls := env.calls;
    var ok := env.ProgramRun(program, prerequisites);
    RunStepIsJustified(before, calls, program, prerequisites, again.value, ok);
    TwoChecks(first, calls, program, prerequisites, status.value, again.value);
    RunEnds(calls, program, prerequisites, |first|, ok);
    return if ok then Done else Failed(Native);
  }

  /** The calls of an execution: one status; a load if it met the prerequisites; a
      run if the load was complete. */
  predicate Executes(calls: seq<Event>, program: Program, prerequisites: seq<Prerequisite>, outcome: Outcome) {
    && calls != [] && calls[0].StatusRead?
    && if calls[0].answer.None? || !AllSatisfied(prerequisites, calls[0].answer.value) then
         && |calls| == 1 && outcome.Failed?
         && match calls[0].answer
            case None => outcome.error == Native
            case Some(status) =>
              outcome.error.Unsatisfied? && IsFirstUnsatisfied(prerequisites, status, outcome.error.prerequisite)
       else
         || (outcome.Failed? && Loads(calls[1..], program, outcome))
         || exists n | 1 <= n <= |calls| ::
              Loads(calls[1..n], program, Done) && Runs(calls[n..], program, prerequisites, outcome)
  }

  /** Executing checks the prerequisites, loads, and then runs. */
  method ExecuteProgramPath(env: Environment, program: Program, prerequisites: seq<Prerequisite>)
    returns (outcome: Outcome, ghost issued: seq<Event>)
    requires env.calls == []
    modifies env
    ensures env.past + env.calls == old(env.past) + issued
    ensures Executes(issued, program, prerequisites, outcome)
  {
    hide Loads, Runs, Satisfied;
    var status := env.ReadStatus();
    ghost var first := [StatusRead(status)];
    issued := first;
    assert env.calls == first;
    if status.None? {
      return Failed(Native), issued;
    }
    outcome := CheckPrerequisiteValues(prerequisites, status.value, None);
    assert outcome.Done? <==> AllSatisfied(prerequisites, status.value);
    hide AllSatisfied, IsFirstUnsatisfied;
    if outcome.Failed? {
      FirstIsNamed(prerequisites, status.value, outcome);
      return;
    }
    env.Begin();
    outcome := LoadProgramPath(env, program);
    ghost var loading := env.calls;
    issued := first + loading;
    assert issued[1..] == loading;
    if outcome.Failed? {
      return;
    }
    env.Begin();
    outcome := RunProgramPath(env, program, prerequisites);
    ghost var running := env.calls;
    issued := first + loading + running;
    assert issued[1..1 + |loading|] == loading && issued[1 + |loading|..] == running;
  }

  // ---------------------------------------------------------------- whole sessions

  datatype ProgramRequest =
    | Load(program: Program)
    | Run(program: Program, prerequisites: seq<Prerequisite>)
    | Execute(program: Program, prerequisites: seq<Prerequisite>)

  /** The calls one request makes, and what it reports. */
  predicate Serves(request: ProgramRequest, calls: seq<Event>, outcome: Outcome) {
    match request
    case Load(program) => Loads(calls, program, outcome)
    case Run(program, prerequisites) => Runs(calls, program, prerequisites, outcome)
    case Execute(program, prerequisites) => Executes(calls, program, prerequisites, outcome)
  }

  lemma JustifiedParts(calls: seq<Event>, n: nat)
    requires 1 <= n <= |calls| && !IsCommand(calls[0]) && AllJustified(calls[1..n]) && AllJustified(calls[n..])
    ensures AllJustified(calls)
  {
    NothingCommanded(calls[..1]);
    hide AllJustified;
    assert calls[..n] == calls[..1] + calls[1..n] && calls == calls[..n] + calls[n..];
    JustifiedConcat(calls[..1], calls[1..n]);
    JustifiedConcat(calls[..n], calls[n..]);
  }

  lemma ServedIsJustified(request: ProgramRequest, calls: seq<Event>, outcome: Outcome)
    requires Serves(request, calls, outcome)
    ensures AllJustified(calls)
  {
    if request.Execute? {
      NothingCommanded(calls[1..1]);
      NothingCommanded(calls[|calls|..]);
      hide AllJustified, LoadCommands, RunCommands, Commands, Explains, CheckedTwice, IsLoaded, AllSatisfied,
           IsFirstUnsatisfied;
      if n: nat :| 1 <= n <= |calls| && Loads(calls[1..n], request.program, Done)
                   && Runs(calls[n..], request.program, request.prerequisites, outcome) {
        JustifiedParts(calls, n);
      } else {
        assert calls[1..|calls|] == calls[1..];
        JustifiedParts(calls, |calls|);
      }
    }
  }

  function Flatten(parts: seq<seq<Event>>): seq<Event> {
    if parts == [] then [] else Flatten(parts[..|parts| - 1]) + parts[|parts| - 1]
  }

  lemma FlattenSnoc(parts: seq<seq<Event>>, part: seq<Event>)
    ensures Flatten(parts + [part]) == Flatten(parts) + part
  {
    assert (parts + [part])[..|parts|] == parts;
  }

  method Serve(env: Environment, request: ProgramRequest) returns (outcome: Outcome, ghost part: seq<Event>)
    modifies env
    ensures env.past + env.calls == old(env.past + env.calls) + part
    ensures Serves(request, part, outcome)
  {
    hide Loads, Runs, Executes;
    env.Begin();
    match request {
      case Load(program) =>
        outcome := LoadProgramPath(env, program);
        part := env.calls;
      case Run(program, prerequisites) =>
        outcome := RunProgramPath(env, program, prerequisites);
        part := env.calls;
      case Execute(program, prerequisites) =>
        outcome, part := ExecuteProgramPath(env, program, prerequisites);
    }
  }

  /** A session of any requests, for different programs, in any order: whatever
      earlier requests and other programs did, every command it issues is justified
      by the calls directly before it, for the program it was issued for. */
  method Session(env: Environment, requests: seq<ProgramRequest>)
    returns (outcomes: seq<Outcome>, ghost parts: seq<seq<Event>>)
    requires env.past == env.calls == []
    modifies env
    ensures env.past + env.calls == Flatten(parts) && AllJustified(Flatten(parts))
    ensures |outcomes| == |parts| == |requests|
    ensures forall k | 0 <= k < |requests| :: Serves(requests[k], parts[k], outcomes[k])
  {
    outcomes, parts := [], [];
    NothingCommanded(Flatten(parts));
    assert Flatten(parts) == [];
    hide AllJustified, Loads, Runs, Executes, Flatten;
    for i := 0 to |requests|
      invariant |outcomes| == |parts| == i
      invariant env.past + env.calls == Flatten(parts) && AllJustified(Flatten(parts))
      invariant forall k | 0 <= k < i :: Serves(requests[k], parts[k], outcomes[k])
    {
      var outcome;
      ghost var part;
      outcome, part := Serve(env, requests[i]);
      ServedIsJustified(requests[i], part, outcome);
      JustifiedConcat(Flatten(parts), part);
      FlattenSnoc(parts, part);
      outcomes, parts := outcomes + [outcome], parts + [part];
    }
  }
}
