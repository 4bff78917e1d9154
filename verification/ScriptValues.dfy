/** The closed values of a script contract, and the semicolon lists they travel in. */
module ScriptValues {
  import opened Words
  import opened Text

  datatype Effect =
    | AxisMotion | Spindle | ProbePower | Coolant | ToolChange
    | DigitalOutput | CoordinateState | ExternalCommand | UnclassifiedMachineCode

  datatype Prerequisite =
    | DesktopSession | RunningSession | PhysicalEstopReleased | EstopClear
    | MachineOn | InterpreterIdle | AllHomed

  datatype Recovery =
    | RecheckSource | ClearController | RestorePendant | ReleaseLimit | AbortTask
    | RestoreMachine | ResetSpindle | RelaunchApplication | EstablishPosition

  datatype Source = Header | ConservativeDefault

  datatype Field = EFFECTS | REQUIRES | RECOVERY

  datatype ScriptError =
    | ReadFailure
    | HeaderLineTooLong
    | HeaderMagic
    | HeaderUnexpectedLine
    | UnknownField
    | EmptyField(field: Field)
    | EmptyListItem(field: Field)
    | DuplicateListItem(field: Field)
    | DuplicateField(field: Field)
    | MissingField(field: Field)
    | UnknownEffect
    | UnknownPrerequisite
    | UnsupportedPrerequisite
    | UnknownRecovery
    | UnterminatedHeader

  function EffectName(e: Effect): string {
    match e
    case AxisMotion => "axis-motion"
    case Spindle => "spindle"
    case ProbePower => "probe-power"
    case Coolant => "coolant"
    case ToolChange => "tool-change"
    case DigitalOutput => "digital-output"
    case CoordinateState => "coordinate-state"
    case ExternalCommand => "external-command"
    case UnclassifiedMachineCode => "unclassified-machine-code"
  }

  function ParseEffect(s: string): Result<Effect, ScriptError> {
    if s == "axis-motion" then Ok(AxisMotion)
    else if s == "spindle" then Ok(Spindle)
    else if s == "probe-power" then Ok(ProbePower)
    else if s == "coolant" then Ok(Coolant)
    else if s == "tool-change" then Ok(ToolChange)
    else if s == "digital-output" then Ok(DigitalOutput)
    else if s == "coordinate-state" then Ok(CoordinateState)
    else if s == "external-command" then Ok(ExternalCommand)
    else if s == "unclassified-machine-code" then Ok(UnclassifiedMachineCode)
    else Err(UnknownEffect)
  }

  function PrerequisiteName(p: Prerequisite): string {
    match p
    case DesktopSession => "desktop-session"
    case RunningSession => "running-session"
    case PhysicalEstopReleased => "physical-estop-released"
    case EstopClear => "estop-clear"
    case MachineOn => "machine-on"
    case InterpreterIdle => "interpreter-idle"
    case AllHomed => "all-homed"
  }

  /** What a script may require; the other two belong to operations only. */
  predicate Supported(p: Prerequisite) {
    !p.DesktopSession? && !p.PhysicalEstopReleased?
  }

  function ParsePrerequisite(s: string): Result<Prerequisite, ScriptError> {
    if s == "running-session" then Ok(RunningSession)
    else if s == "estop-clear" then Ok(EstopClear)
    else if s == "machine-on" then Ok(MachineOn)
    else if s == "interpreter-idle" then Ok(InterpreterIdle)
    else if s == "all-homed" then Ok(AllHomed)
    else if s == "desktop-session" || s == "physical-estop-released" then Err(UnsupportedPrerequisite)
    else Err(UnknownPrerequisite)
  }

  function RecoveryName(r: Recovery): string {
    match r
    case RecheckSource => "RECHECK_SOURCE"
    case ClearController => "CLEAR_CONTROLLER"
    case RestorePendant => "RESTORE_PENDANT"
    case ReleaseLimit => "RELEASE_LIMIT"
    case AbortTask => "ABORT_TASK"
    case RestoreMachine => "RESTORE_MACHINE"
    case ResetSpindle => "RESET_SPINDLE"
    case RelaunchApplication => "RELAUNCH_APPLICATION"
    case EstablishPosition => "ESTABLISH_POSITION"
  }

  function RecoverySlug(r: Recovery): string {
    match r
    case RecheckSource => "recheck-source"
    case ClearController => "clear-controller"
    case RestorePendant => "restore-pendant"
    case ReleaseLimit => "release-limit"
    case AbortTask => "abort-task"
    case RestoreMachine => "restore-machine"
    case ResetSpindle => "reset-spindle"
    case RelaunchApplication => "relaunch-application"
    case EstablishPosition => "establish-position"
  }

  function RecoveryByName(s: string): Option<Recovery> {
    if s == "RECHECK_SOURCE" then Some(RecheckSource)
    else if s == "CLEAR_CONTROLLER" then Some(ClearController)
    else if s == "RESTORE_PENDANT" then Some(RestorePendant)
    else if s == "RELEASE_LIMIT" then Some(ReleaseLimit)
    else if s == "ABORT_TASK" then Some(AbortTask)
    else if s == "RESTORE_MACHINE" then Some(RestoreMachine)
    else if s == "RESET_SPINDLE" then Some(ResetSpindle)
    else if s == "RELAUNCH_APPLICATION" then Some(RelaunchApplication)
    else if s == "ESTABLISH_POSITION" then Some(EstablishPosition)
    else None
  }

  function RecoveryBySlug(s: string): Option<Recovery> {
    if s == "recheck-source" then Some(RecheckSource)
    else if s == "clear-controller" then Some(ClearController)
    else if s == "restore-pendant" then Some(RestorePendant)
    else if s == "release-limit" then Some(ReleaseLimit)
    else if s == "abort-task" then Some(AbortTask)
    else if s == "restore-machine" then Some(RestoreMachine)
    else if s == "reset-spindle" then Some(ResetSpindle)
    else if s == "relaunch-application" then Some(RelaunchApplication)
    else if s == "establish-position" then Some(EstablishPosition)
    else None
  }

  function SourceName(s: Source): string {
    match s case Header => "header" case ConservativeDefault => "conservative-default"
  }

  function SourceByName(s: string): Option<Source> {
    if s == "header" then Some(Header) else if s == "conservative-default" then Some(ConservativeDefault) else None
  }

  lemma EffectExact(e: Effect, s: string)
    ensures ParseEffect(s) == Ok(e) <==> s == EffectName(e)
  {
  }

  lemma PrerequisiteExact(p: Prerequisite, s: string)
    ensures ParsePrerequisite(s) == Ok(p) <==> Supported(p) && s == PrerequisiteName(p)
  {
  }

  lemma RecoveryNameExact(r: Recovery, s: string)
    ensures RecoveryByName(s) == Some(r) <==> s == RecoveryName(r)
  {
  }

  lemma RecoverySlugExact(r: Recovery, s: string)
    ensures RecoveryBySlug(s) == Some(r) <==> s == RecoverySlug(r)
  {
  }

  // --------------------------------------------------------------- printable text

  // Of the visible characters, a range that holds every name, and no separator.
  predicate WordChar(c: char) {
    '-' <= c <= 'z' && c != ';' && c != '='
  }

  predicate Word(s: string) {
    s != "" && |s| <= 30 && forall i | 0 <= i < |s| :: WordChar(s[i])
  }

  lemma EffectIsWord(e: Effect)
    ensures Word(EffectName(e))
  {
    match e {
      case AxisMotion => assert Word(EffectName(AxisMotion));
      case Spindle => assert Word(EffectName(Spindle));
      case ProbePower => assert Word(EffectName(ProbePower));
      case Coolant => assert Word(EffectName(Coolant));
      case ToolChange => assert Word(EffectName(ToolChange));
      case DigitalOutput => assert Word(EffectName(DigitalOutput));
      case CoordinateState => assert Word(EffectName(CoordinateState));
      case ExternalCommand => assert Word(EffectName(ExternalCommand));
      case UnclassifiedMachineCode => assert Word(EffectName(UnclassifiedMachineCode));
    }
  }

  lemma PrerequisiteIsWord(p: Prerequisite)
    ensures Word(PrerequisiteName(p))
  {
    match p {
      case DesktopSession => assert Word(PrerequisiteName(DesktopSession));
      case RunningSession => assert Word(PrerequisiteName(RunningSession));
      case PhysicalEstopReleased => assert Word(PrerequisiteName(PhysicalEstopReleased));
      case EstopClear => assert Word(PrerequisiteName(EstopClear));
      case MachineOn => assert Word(PrerequisiteName(MachineOn));
      case InterpreterIdle => assert Word(PrerequisiteName(InterpreterIdle));
      case AllHomed => assert Word(PrerequisiteName(AllHomed));
    }
  }

  lemma RecoveryNameIsWord(r: Recovery)
    ensures Word(RecoveryName(r))
  {
    match r {
      case RecheckSource => assert Word(RecoveryName(RecheckSource));
      case ClearController => assert Word(RecoveryName(ClearController));
      case RestorePendant => assert Word(RecoveryName(RestorePendant));
      case ReleaseLimit => assert Word(RecoveryName(ReleaseLimit));
      case AbortTask => assert Word(RecoveryName(AbortTask));
      case RestoreMachine => assert Word(RecoveryName(RestoreMachine));
      case ResetSpindle => assert Word(RecoveryName(ResetSpindle));
      case RelaunchApplication => assert Word(RecoveryName(RelaunchApplication));
      case EstablishPosition => assert Word(RecoveryName(EstablishPosition));
    }
  }

  lemma RecoverySlugIsWord(r: Recovery)
    ensures Word(RecoverySlug(r))
  {
    match r {
      case RecheckSource => assert Word(RecoverySlug(RecheckSource));
      case ClearController => assert Word(RecoverySlug(ClearController));
      case RestorePendant => assert Word(RecoverySlug(RestorePendant));
      case ReleaseLimit => assert Word(RecoverySlug(ReleaseLimit));
      case AbortTask => assert Word(RecoverySlug(AbortTask));
      case RestoreMachine => assert Word(RecoverySlug(RestoreMachine));
      case ResetSpindle => assert Word(RecoverySlug(ResetSpindle));
      case RelaunchApplication => assert Word(RecoverySlug(RelaunchApplication));
      case EstablishPosition => assert Word(RecoverySlug(EstablishPosition));
    }
  }

  lemma SourceIsWord(s: Source)
    ensures Word(SourceName(s))
  {
  }

  // ------------------------------------------------------------------------- lists

  predicate Distinct<T(==)>(v: seq<T>) {
    forall i, j | 0 <= i < j < |v| :: v[i] != v[j]
  }

  function Names<T>(name: T -> string, v: seq<T>): seq<string> {
    if v == [] then [] else [name(v[0])] + Names(name, v[1..])
  }

  function ListText<T>(name: T -> string, v: seq<T>): string {
    Join(Names(name, v), ';')
  }

  /** Rust: the items one by one, the first fault met is reported. */
  function ParseItems<T(==)>(field: Field, items: seq<string>, parse: string -> Result<T, ScriptError>, done: seq<T>)
    : Result<seq<T>, ScriptError>
    decreases |items|
  {
    if items == [] then Ok(done)
    else if items[0] == "" then Err(EmptyListItem(field))
    else
      match parse(items[0])
      case Err(e) => Err(e)
      case Ok(value) =>
        if value in done then Err(DuplicateListItem(field))
        else ParseItems(field, items[1..], parse, done + [value])
  }

  function ParsedList<T(==)>(field: Field, raw: string, parse: string -> Result<T, ScriptError>)
    : Result<seq<T>, ScriptError>
  {
    if raw == "" then Err(EmptyField(field)) else ParseItems(field, Split(raw, ';'), parse, [])
  }

  method ParseList<T(==)>(field: Field, raw: string, parse: string -> Result<T, ScriptError>)
    returns (r: Result<seq<T>, ScriptError>)
    ensures r == ParsedList(field, raw, parse)
  {
    if raw == "" {
      return Err(EmptyField(field));
    }
    var items := Split(raw, ';');
    var parsed := [];
    for i := 0 to |items|
      invariant ParseItems(field, items, parse, []) == ParseItems(field, items[i..], parse, parsed)
    {
      assert items[i..][1..] == items[i + 1..];
      if items[i] == "" {
        return Err(EmptyListItem(field));
      }
      var value := parse(items[i]);
      match value {
        case Err(e) => return Err(e);
        case Ok(v) =>
          if v in parsed {
            return Err(DuplicateListItem(field));
          }
          parsed := parsed + [v];
      }
    }
    return Ok(parsed);
  }

  /** Python: all items split first, then emptiness, duplicates, membership. */
  function EnumList<T(==)>(raw: string, parse: string -> Option<T>): Option<seq<T>> {
    var values := Split(raw, ';');
    if raw == "" || "" in values then None
    else if !Distinct(values) then None
    else Members(values, parse)
  }

  function Members<T>(values: seq<string>, parse: string -> Option<T>): Option<seq<T>> {
    if values == [] then Some([])
    else
      var first, rest := parse(values[0]), Members(values[1..], parse);
      if first.None? || rest.None? then None else Some([first.value] + rest.value)
  }

  /** Names and parser are inverse on the values in the domain. */
  ghost predicate Codec<T(!new)>(name: T -> string, domain: T -> bool, parse: string -> Option<T>) {
    && (forall x, s :: parse(s) == Some(x) <==> domain(x) && s == name(x))
    && (forall x :: domain(x) ==> name(x) != "" && ';' !in name(x))
  }

  function Accepted<T>(parse: string -> Result<T, ScriptError>): string -> Option<T> {
    s => match parse(s) case Ok(v) => Some(v) case Err(_) => None
  }

  ghost predicate Listable<T(!new)>(domain: T -> bool, v: seq<T>) {
    v != [] && Distinct(v) && forall x <- v :: domain(x)
  }

  lemma {:induction false} NamesAreFree<T(!new)>(name: T -> string, domain: T -> bool, parse: string -> Option<T>,
                                                 v: seq<T>)
    requires Codec(name, domain, parse) && forall x <- v :: domain(x)
    ensures |Names(name, v)| == |v|
    ensures forall i | 0 <= i < |v| :: Names(name, v)[i] == name(v[i])
    ensures forall s <- Names(name, v) :: s != "" && ';' !in s
  {
    if v != [] {
      NamesAreFree(name, domain, parse, v[1..]);
    }
  }

  lemma {:induction false} JoinNonempty(fields: seq<string>)
    requires fields != [] && fields[0] != ""
    ensures Join(fields, ';') != ""
  {
  }

  lemma {:induction false} MembersExactly<T(!new)>(name: T -> string, domain: T -> bool, parse: string -> Option<T>,
                                                   values: seq<string>, v: seq<T>)
    requires Codec(name, domain, parse)
    ensures Members(values, parse) == Some(v) <==> (forall x <- v :: domain(x)) && values == Names(name, v)
    decreases |values|
  {
    if values != [] {
      if v != [] {
        MembersExactly(name, domain, parse, values[1..], v[1..]);
        assert v == [v[0]] + v[1..] && values == [values[0]] + values[1..];
      }
    }
  }

  /** Python accepts exactly the canonical text of a nonempty list without repetition. */
  lemma EnumListExactly<T(!new)>(name: T -> string, domain: T -> bool, parse: string -> Option<T>, raw: string,
                                 v: seq<T>)
    requires Codec(name, domain, parse)
    ensures EnumList(raw, parse) == Some(v) <==> Listable(domain, v) && raw == ListText(name, v)
  {
    var values := Split(raw, ';');
    JoinOfSplit(raw, ';');
    MembersExactly(name, domain, parse, values, v);
    if Listable(domain, v) && raw == ListText(name, v) {
      NamesAreFree(name, domain, parse, v);
      SplitOfJoin(Names(name, v), ';');
      JoinNonempty(Names(name, v));
      DistinctNames(name, domain, parse, v);
    }
    if EnumList(raw, parse) == Some(v) {
      NamesAreFree(name, domain, parse, v);
      DistinctNames(name, domain, parse, v);
    }
  }

  lemma DistinctNames<T(!new)>(name: T -> string, domain: T -> bool, parse: string -> Option<T>, v: seq<T>)
    requires Codec(name, domain, parse) && forall x <- v :: domain(x)
    ensures Distinct(Names(name, v)) <==> Distinct(v)
  {
    NamesAreFree(name, domain, parse, v);
    forall i, j | 0 <= i < |v| && 0 <= j < |v| ensures name(v[i]) == name(v[j]) <==> v[i] == v[j] {
      assert parse(name(v[i])) == Some(v[i]) && parse(name(v[j])) == Some(v[j]);
    }
  }

  lemma {:induction false} ParseItemsExactly<T(!new)>(field: Field, name: T -> string, domain: T -> bool,
                                                      parse: string -> Result<T, ScriptError>,
                                                      items: seq<string>, done: seq<T>, v: seq<T>)
    requires Codec(name, domain, Accepted(parse)) && Distinct(done)
    ensures ParseItems(field, items, parse, done) == Ok(done + v) <==>
            (forall x <- v :: domain(x)) && items == Names(name, v) && Distinct(done + v)
    decreases |items|
  {
    if items == [] {
      assert v == [] ==> done + v == done;
      if v != [] {
        assert |done + v| > |done|;
      }
    } else if v == [] {
      assert done + v == done;
      OnlyGrows(field, items, parse, done);
    } else {
      assert Accepted(parse)(items[0]) == Some(v[0]) <==> domain(v[0]) && items[0] == name(v[0]);
      assert done + v == (done + [v[0]]) + v[1..];
      assert v == [v[0]] + v[1..] && items == [items[0]] + items[1..];
      if parse(items[0]).Ok? && parse(items[0]).value == v[0] && v[0] !in done {
        ParseItemsExactly(field, name, domain, parse, items[1..], done + [v[0]], v[1..]);
      } else {
        StartsWithItem(field, items, parse, done, v);
        if v[0] in done {
          var k :| 0 <= k < |done| && done[k] == v[0];
          assert (done + v)[k] == (done + v)[|done|];
        }
      }
    }
  }

  /** Every accepted item adds one value, in place. */
  lemma {:induction false} OnlyGrows<T(!new)>(field: Field, items: seq<string>, parse: string -> Result<T, ScriptError>,
                                              done: seq<T>)
    ensures var r := ParseItems(field, items, parse, done);
            r.Ok? ==> done <= r.value && |r.value| == |done| + |items|
    decreases |items|
  {
    if items != [] && items[0] != "" && parse(items[0]).Ok? && parse(items[0]).value !in done {
      OnlyGrows(field, items[1..], parse, done + [parse(items[0]).value]);
    }
  }

  lemma StartsWithItem<T(!new)>(field: Field, items: seq<string>, parse: string -> Result<T, ScriptError>,
                                done: seq<T>, v: seq<T>)
    requires items != [] && v != []
    requires !(parse(items[0]).Ok? && parse(items[0]).value == v[0] && v[0] !in done)
    ensures ParseItems(field, items, parse, done) != Ok(done + v)
  {
    if items[0] != "" && parse(items[0]).Ok? && parse(items[0]).value !in done {
      var next := done + [parse(items[0]).value];
      OnlyGrows(field, items[1..], parse, next);
      assert (done + v)[|done|] == v[0] && next[|done|] == parse(items[0]).value;
    }
  }

  /** Rust accepts exactly the same texts. */
  lemma ParseListExactly<T(!new)>(field: Field, name: T -> string, domain: T -> bool,
                                  parse: string -> Result<T, ScriptError>, raw: string, v: seq<T>)
    requires Codec(name, domain, Accepted(parse))
    ensures ParsedList(field, raw, parse) == Ok(v) <==> Listable(domain, v) && raw == ListText(name, v)
  {
    JoinOfSplit(raw, ';');
    assert [] + v == v;
    ParseItemsExactly(field, name, domain, parse, Split(raw, ';'), [], v);
    if Listable(domain, v) && raw == ListText(name, v) {
      NamesAreFree(name, domain, Accepted(parse), v);
      SplitOfJoin(Names(name, v), ';');
      JoinNonempty(Names(name, v));
    }
  }
}
