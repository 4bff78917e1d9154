/** The header of a script file: which headers are accepted, and what they say. */
module ScriptHeader {
  import opened Words
  import opened Text
  import opened ScriptValues
  import ScriptContract

  const HEADER_MAGIC := "(DMC2 SCRIPT 1)"
  const HEADER_START := "(DMC2 SCRIPT"
  const HEADER_END := "(DMC2 END)"
  const HEADER_PREFIX := "(DMC2 "
  const MAX_HEADER_LINES := 128
  const MAX_HEADER_LINE_BYTES := 4096

  datatype Fields = Fields(
    source: Source, effects: seq<Effect>, prerequisites: seq<Prerequisite>, recovery: Recovery)

  const CONSERVATIVE :=
    Fields(ConservativeDefault, [UnclassifiedMachineCode],
           [RunningSession, EstopClear, MachineOn, InterpreterIdle, AllHomed], AbortTask)

  datatype Progress = Progress(
    started: bool,
    effects: Option<seq<Effect>>,
    prerequisites: Option<seq<Prerequisite>>,
    recovery: Option<Recovery>)

  const FRESH := Progress(false, None, None, None)

  // What one line does: the scan goes on, or `parse_header` returns.
  datatype Scan = More(p: Progress) | Return(r: Result<Fields, ScriptError>)

  /** Unicode's White_Space property, which Rust's `trim` goes by. */
  predicate IsWhiteSpace(c: char) {
    var code := c as int;
    || 0x9 <= code <= 0xd
    || code in {0x20, 0x85, 0xa0, 0x1680, 0x2028, 0x2029, 0x202f, 0x205f, 0x3000}
    || 0x2000 <= code <= 0x200a
  }

  /** The bytes of a text in UTF-8. */
  function ByteLength(s: string): (n: nat)
    ensures n <= 4 * |s|
  {
    if s == "" then 0
    else
      var code := s[0] as int;
      (if code < 0x80 then 1 else if code < 0x800 then 2 else if code < 0x1_0000 then 3 else 4) + ByteLength(s[1..])
  }

  /** A text has at least one byte for each character, and exactly one if it is ASCII. */
  lemma {:induction false} AsciiLength(s: string)
    ensures ByteLength(s) >= |s|
    ensures ByteLength(s) == |s| <==> forall i | 0 <= i < |s| :: s[i] as int < 128
  {
    if s != "" {
      var rest := s[1..];
      AsciiLength(rest);
      assert forall i | 0 < i < |s| :: s[i] == rest[i - 1];
      assert forall i | 0 <= i < |rest| :: rest[i] == s[i + 1];
    }
  }

  /** Among ASCII characters, tab to carriage return and the blank are trimmed. */
  lemma AsciiWhiteSpace(c: char)
    requires c as int < 128
    ensures IsWhiteSpace(c) <==> c in "\t\n\U{B}\U{C}\r "
  {
  }

  // A line that cannot be read, or is not UTF-8, is an error of the reader.
  datatype PhysicalLine = Readable(text: string) | Unreadable

  function TrimStart(s: string): string {
    if s != "" && IsWhiteSpace(s[0]) then TrimStart(s[1..]) else s
  }

  function TrimEnd(s: string): string {
    if s != "" && IsWhiteSpace(s[|s| - 1]) then TrimEnd(s[..|s| - 1]) else s
  }

  function Trim(s: string): string {
    TrimEnd(TrimStart(s))
  }

  predicate LeadingNonCode(value: string) {
    || value == ""
    || value == "%"
    || value[0] == ';'
    || (value[0] == '(' && value[|value| - 1] == ')')
  }

  function CompleteHeader(p: Progress): Result<Fields, ScriptError> {
    if p.effects.None? then Err(MissingField(EFFECTS))
    else if p.prerequisites.None? then Err(MissingField(REQUIRES))
    else if p.recovery.None? then Err(MissingField(RECOVERY))
    else Ok(Fields(Header, p.effects.value, p.prerequisites.value, p.recovery.value))
  }

  /** The field and its raw value inside `(DMC2 FIELD raw)`. */
  function Inner(value: string): Option<(string, string)> {
    if !(HEADER_PREFIX <= value) then None
    else
      var rest := value[|HEADER_PREFIX|..];
      if rest == "" || rest[|rest| - 1] != ')' then None else Partition(rest[..|rest| - 1], ' ')
  }

  function SetOnce<T>(field: Field, destination: Option<T>, value: Result<T, ScriptError>): Result<T, ScriptError> {
    if value.Err? then value
    else if destination.Some? then Err(DuplicateField(field))
    else value
  }

  function SlugValue(raw: string): Result<Recovery, ScriptError> {
    match RecoveryBySlug(raw) case Some(r) => Ok(r) case None => Err(UnknownRecovery)
  }

  function ScanField(p: Progress, field: string, raw: string): Scan {
    if field == "EFFECTS" then
      match SetOnce(EFFECTS, p.effects, ParsedList(EFFECTS, raw, ParseEffect))
      case Ok(v) => More(p.(effects := Some(v)))
      case Err(e) => Return(Err(e))
    else if field == "REQUIRES" then
      match SetOnce(REQUIRES, p.prerequisites, ParsedList(REQUIRES, raw, ParsePrerequisite))
      case Ok(v) => More(p.(prerequisites := Some(v)))
      case Err(e) => Return(Err(e))
    else if field == "RECOVERY" then
      match SetOnce(RECOVERY, p.recovery, SlugValue(raw))
      case Ok(v) => More(p.(recovery := Some(v)))
      case Err(e) => Return(Err(e))
    else Return(Err(UnknownField))
  }

  function ScanLine(p: Progress, raw: string): Scan {
    var value := Trim(raw);
    if ByteLength(raw) > MAX_HEADER_LINE_BYTES && (p.started || HEADER_START <= value) then
      Return(Err(HeaderLineTooLong))
    else if !p.started then
      if value == HEADER_MAGIC then More(p.(started := true))
      else if HEADER_START <= value then Return(Err(HeaderMagic))
      else if LeadingNonCode(value) then More(p)
      else Return(Ok(CONSERVATIVE))
    else if value == HEADER_END then Return(CompleteHeader(p))
    else if value == "" then More(p)
    else
      match Inner(value)
      case None => Return(Err(HeaderUnexpectedLine))
      case Some((field, rest)) => ScanField(p, field, rest)
  }

  function ScanPhysical(p: Progress, line: PhysicalLine): Scan {
    match line
    case Readable(raw) => ScanLine(p, raw)
    case Unreadable => Return(Err(ReadFailure))
  }

  function ScanFrom(lines: seq<PhysicalLine>, i: nat, p: Progress): Result<Fields, ScriptError>
    requires i <= |lines|
    decreases |lines| - i
  {
    if i == |lines| || i >= MAX_HEADER_LINES then (if p.started then Err(UnterminatedHeader) else Ok(CONSERVATIVE))
    else
      match ScanPhysical(p, lines[i])
      case More(q) => ScanFrom(lines, i + 1, q)
      case Return(r) => r
  }

  /** `parse_header` over the physical lines of the file. */
  method ParseHeader(lines: seq<PhysicalLine>) returns (r: Result<Fields, ScriptError>)
    ensures r == ScanFrom(lines, 0, FRESH)
  {
    hide ScanLine, ScanField, Trim, Inner;
    var progress := FRESH;
    var i := 0;
    while i < MAX_HEADER_LINES && i < |lines|
      invariant i <= |lines| && i <= MAX_HEADER_LINES
      invariant ScanFrom(lines, 0, FRESH) == ScanFrom(lines, i, progress)
    {
      if lines[i].Unreadable? {
        return Err(ReadFailure);
      }
      var step := OneHeaderLine(progress, lines[i].text);
      match step {
        case Return(result) => return result;
        case More(next) => progress := next;
      }
      i := i + 1;
    }
    return if progress.started then Err(UnterminatedHeader) else Ok(CONSERVATIVE);
  }

  // The body of the loop.
  method OneHeaderLine(p: Progress, raw: string) returns (step: Scan)
    ensures step == ScanLine(p, raw)
  {
    hide Trim, LeadingNonCode, Inner, ScanField;
    var value := Trim(raw);
    if ByteLength(raw) > MAX_HEADER_LINE_BYTES && (p.started || HEADER_START <= value) {
      return Return(Err(HeaderLineTooLong));
    }
    if !p.started {
      if value == HEADER_MAGIC {
        return More(p.(started := true));
      }
      if HEADER_START <= value {
        return Return(Err(HeaderMagic));
      }
      if LeadingNonCode(value) {
        return More(p);
      }
      return Return(Ok(CONSERVATIVE));
    }
    if value == HEADER_END {
      return Return(CompleteHeader(p));
    }
    if value == "" {
      return More(p);
    }
    var inner := Inner(value);
    if inner.None? {
      return Return(Err(HeaderUnexpectedLine));
    }
    step := OneField(p, inner.value.0, inner.value.1);
  }

  method OneField(p: Progress, field: string, raw: string) returns (step: Scan)
    ensures step == ScanField(p, field, raw)
  {
    hide ParsedList;
    if field == "EFFECTS" {
      var parsed := ParseList(EFFECTS, raw, ParseEffect);
      var value := SetOnce(EFFECTS, p.effects, parsed);
      return match value case Ok(v) => More(p.(effects := Some(v))) case Err(e) => Return(Err(e));
    }
    if field == "REQUIRES" {
      var parsed := ParseList(REQUIRES, raw, ParsePrerequisite);
      var value := SetOnce(REQUIRES, p.prerequisites, parsed);
      return match value case Ok(v) => More(p.(prerequisites := Some(v))) case Err(e) => Return(Err(e));
    }
    if field == "RECOVERY" {
      var value := SetOnce(RECOVERY, p.recovery, SlugValue(raw));
      return match value case Ok(v) => More(p.(recovery := Some(v))) case Err(e) => Return(Err(e));
    }
    return Return(Err(UnknownField));
  }

  // ------------------------------------------------------ what a header can yield

  ghost predicate GoodEffects(v: seq<Effect>) {
    Listable(ScriptContract.AnyEffect, v)
  }

  ghost predicate GoodPrerequisites(v: seq<Prerequisite>) {
    Listable(Supported, v)
  }

  ghost predicate GoodFields(f: Fields) {
    GoodEffects(f.effects) && GoodPrerequisites(f.prerequisites)
  }

  ghost predicate GoodProgress(p: Progress) {
    && (p.effects.Some? ==> GoodEffects(p.effects.value))
    && (p.prerequisites.Some? ==> GoodPrerequisites(p.prerequisites.value))
  }

  lemma EffectListExactly(raw: string, v: seq<Effect>)
    ensures ParsedList(EFFECTS, raw, ParseEffect) == Ok(v) <==> GoodEffects(v) && raw == ListText(EffectName, v)
  {
    ScriptContract.EffectCodec();
    assert Codec(EffectName, ScriptContract.AnyEffect, Accepted(ParseEffect)) by {
      hide ParseEffect, EffectName;
      forall s ensures Accepted(ParseEffect)(s) == ScriptContract.EffectByName(s) {
      }
    }
    ParseListExactly(EFFECTS, EffectName, ScriptContract.AnyEffect, ParseEffect, raw, v);
  }

  lemma PrerequisiteListExactly(raw: string, v: seq<Prerequisite>)
    ensures ParsedList(REQUIRES, raw, ParsePrerequisite) == Ok(v) <==>
            GoodPrerequisites(v) && raw == ListText(PrerequisiteName, v)
  {
    ScriptContract.PrerequisiteCodec();
    assert Codec(PrerequisiteName, Supported, Accepted(ParsePrerequisite)) by {
      hide ParsePrerequisite, PrerequisiteName;
      forall s ensures Accepted(ParsePrerequisite)(s) == ScriptContract.PrerequisiteByName(s) {
      }
    }
    ParseListExactly(REQUIRES, PrerequisiteName, Supported, ParsePrerequisite, raw, v);
  }

  lemma FieldKeepsGood(p: Progress, field: string, raw: string)
    requires GoodProgress(p)
    ensures match ScanField(p, field, raw) case More(q) => GoodProgress(q) case Return(r) => r.Err?
  {
    hide ParsedList, GoodEffects, GoodPrerequisites;
    var effects, prerequisites := ParsedList(EFFECTS, raw, ParseEffect), ParsedList(REQUIRES, raw, ParsePrerequisite);
    if effects.Ok? {
      EffectListExactly(raw, effects.value);
    }
    if prerequisites.Ok? {
      PrerequisiteListExactly(raw, prerequisites.value);
    }
  }

  lemma LineKeepsGood(p: Progress, raw: string)
    requires GoodProgress(p)
    ensures match ScanLine(p, raw)
            case More(q) => GoodProgress(q)
            case Return(r) => r.Ok? ==> GoodFields(r.value)
  {
    var value := Trim(raw);
    hide Trim, Inner, ScanField, LeadingNonCode;
    if Inner(value).Some? {
      FieldKeepsGood(p, Inner(value).value.0, Inner(value).value.1);
    }
  }

  /** Whatever a file's lines are, an accepted header holds nonempty lists without
      repetition, of effects and of prerequisites that scripts may require. */
  lemma {:induction false} AcceptedHeaderIsGood(lines: seq<PhysicalLine>, i: nat, p: Progress)
    requires i <= |lines| && GoodProgress(p)
    ensures var r := ScanFrom(lines, i, p); r.Ok? ==> GoodFields(r.value)
    decreases |lines| - i
  {
    if i < |lines| && i < MAX_HEADER_LINES {
      if lines[i].Readable? {
        LineKeepsGood(p, lines[i].text);
      }
      var step := ScanPhysical(p, lines[i]);
      hide ScanLine;
      if step.More? {
        AcceptedHeaderIsGood(lines, i + 1, step.p);
      }
    }
  }

  function ContractOf(f: Fields, path: seq<u8>, bytes: u64, fnv1a64: u64): ScriptContract.Contract {
    ScriptContract.Contract(path, f.source, f.effects, f.prerequisites, f.recovery, bytes, fnv1a64)
  }

  /** Across the languages: for every file, the contract the Rust parser returns,
      the conservative default included, is the one AXIS recovers from its printout. */
  lemma HeaderReachesAxis(lines: seq<PhysicalLine>, path: seq<u8>, bytes: u64, fnv1a64: u64)
    requires path != [] && ScanFrom(lines, 0, FRESH).Ok?
    ensures var c := ContractOf(ScanFrom(lines, 0, FRESH).value, path, bytes, fnv1a64);
            ScriptContract.ParsedOutput(ScriptContract.Printed(c), ScriptContract.SameFile) == Ok(c)
  {
    AcceptedHeaderIsGood(lines, 0, FRESH);
    var c := ContractOf(ScanFrom(lines, 0, FRESH).value, path, bytes, fnv1a64);
    assert ScriptContract.Valid(c);
    hide ScanFrom, ScriptContract.Printed, ScriptContract.ParsedOutput;
    ScriptContract.PrintThenRead(c);
  }

  // --------------------------------------------------- every contract has a header

  function Line(field: string, raw: string): string {
    HEADER_PREFIX + field + " " + raw + ")"
  }

  function HeaderText(f: Fields): seq<PhysicalLine> {
    [Readable(HEADER_MAGIC + "\n"), Readable(Line("EFFECTS", ListText(EffectName, f.effects)) + "\n"),
     Readable(Line("REQUIRES", ListText(PrerequisiteName, f.prerequisites)) + "\n"),
     Readable(Line("RECOVERY", RecoverySlug(f.recovery)) + "\n"), Readable(HEADER_END + "\n")]
  }

  lemma TrimLine(s: string)
    requires s != "" && !IsWhiteSpace(s[0]) && !IsWhiteSpace(s[|s| - 1])
    ensures Trim(s + "\n") == s
  {
    var t := s + "\n";
    assert TrimStart(t) == t;
    assert IsWhiteSpace(t[|t| - 1]) && t[..|t| - 1] == s;
    assert TrimEnd(t) == TrimEnd(s) == s;
  }

  lemma InnerOfLine(field: string, raw: string)
    requires ' ' !in field
    ensures Inner(Line(field, raw)) == Some((field, raw))
  {
    var value := Line(field, raw);
    var body := field + " " + raw;
    assert value == HEADER_PREFIX + (body + ")");
    assert value[|HEADER_PREFIX|..] == body + ")";
    assert (body + ")")[..|body|] == body;
    PartitionExactly(body, ' ', field, raw);
  }

  lemma FieldLine(p: Progress, field: string, raw: string)
    requires p.started && field in {"EFFECTS", "REQUIRES", "RECOVERY"} && |raw| <= 900
    ensures ScanLine(p, Line(field, raw) + "\n") == ScanField(p, field, raw)
  {
    var value := Line(field, raw);
    assert value[0] == '(' && value[|value| - 1] == ')';
    TrimLine(value);
    assert value[6] == field[0] && HEADER_END[7] == 'N' && value[7] == field[1];
    assert value != HEADER_END by {
      assert field[1] != 'N';
    }
    InnerOfLine(field, raw);
    ScanInner(p, value + "\n", value, field, raw);
  }

  lemma ScanInner(p: Progress, raw: string, value: string, field: string, rest: string)
    requires p.started && ByteLength(raw) <= MAX_HEADER_LINE_BYTES && Trim(raw) == value
    requires value != "" && value != HEADER_END && Inner(value) == Some((field, rest))
    ensures ScanLine(p, raw) == ScanField(p, field, rest)
  {
    hide Trim, Inner, ScanField;
  }

  // A list without repetition is no longer than the number of values there are.
  lemma {:induction false} PigeonHole(s: seq<nat>, n: nat)
    requires Distinct(s) && forall x <- s :: x < n
    ensures |s| <= n
    decreases n
  {
    if s != [] {
      assert s[0] in s;
      if n - 1 in s {
        var k :| 0 <= k < |s| && s[k] == n - 1;
        var rest := s[..k] + s[k + 1..];
        forall j | 0 <= j < |rest| ensures rest[j] < n - 1 {
          var was := if j < k then j else j + 1;
          assert rest[j] == s[was] && s[was] in s;
          assert s[was] != s[k];
        }
        PigeonHole(rest, n - 1);
      } else {
        PigeonHole(s, n - 1);
      }
    }
  }

  function EffectIndex(e: Effect): nat {
    match e
    case AxisMotion => 0 case Spindle => 1 case ProbePower => 2 case Coolant => 3 case ToolChange => 4
    case DigitalOutput => 5 case CoordinateState => 6 case ExternalCommand => 7 case UnclassifiedMachineCode => 8
  }

  function PrerequisiteIndex(p: Prerequisite): nat {
    match p
    case DesktopSession => 0 case RunningSession => 1 case PhysicalEstopReleased => 2 case EstopClear => 3
    case MachineOn => 4 case InterpreterIdle => 5 case AllHomed => 6
  }

  lemma {:induction false} ListTextBound<T>(name: T -> string, v: seq<T>)
    requires forall x <- v :: |name(x)| <= 30
    ensures |ListText(name, v)| <= 31 * |v|
  {
    if |v| == 1 {
      assert Names(name, v) == [name(v[0])];
    } else if |v| > 1 {
      ListTextBound(name, v[1..]);
      assert Names(name, v)[1..] == Names(name, v[1..]);
    }
  }

  lemma ShortEffects(v: seq<Effect>)
    requires GoodEffects(v)
    ensures |ListText(EffectName, v)| <= 900
  {
    var s := seq(|v|, i requires 0 <= i < |v| => EffectIndex(v[i]));
    PigeonHole(s, 9);
    forall x <- v ensures |EffectName(x)| <= 30 {
      EffectIsWord(x);
    }
    ListTextBound(EffectName, v);
  }

  lemma ShortPrerequisites(v: seq<Prerequisite>)
    requires GoodPrerequisites(v)
    ensures |ListText(PrerequisiteName, v)| <= 900
  {
    var s := seq(|v|, i requires 0 <= i < |v| => PrerequisiteIndex(v[i]));
    PigeonHole(s, 7);
    forall x <- v ensures |PrerequisiteName(x)| <= 30 {
      PrerequisiteIsWord(x);
    }
    ListTextBound(PrerequisiteName, v);
  }

  /** No contract is out of reach: the five-line header that states it yields it. */
  lemma EveryContractHasAHeader(f: Fields)
    requires GoodFields(f) && f.source == Header
    ensures ScanFrom(HeaderText(f), 0, FRESH) == Ok(f)
  {
    var lines := HeaderText(f);
    MagicAndEnd();
    ShortEffects(f.effects);
    ShortPrerequisites(f.prerequisites);
    RecoverySlugIsWord(f.recovery);
    var p1 := FRESH.(started := true);
    var p2 := p1.(effects := Some(f.effects));
    var p3 := p2.(prerequisites := Some(f.prerequisites));
    var p4 := p3.(recovery := Some(f.recovery));
    FieldLine(p1, "EFFECTS", ListText(EffectName, f.effects));
    FieldLine(p2, "REQUIRES", ListText(PrerequisiteName, f.prerequisites));
    FieldLine(p3, "RECOVERY", RecoverySlug(f.recovery));
    EffectListExactly(ListText(EffectName, f.effects), f.effects);
    PrerequisiteListExactly(ListText(PrerequisiteName, f.prerequisites), f.prerequisites);
    RecoverySlugExact(f.recovery, RecoverySlug(f.recovery));
    hide ScanLine, ListText, RecoverySlug, RecoveryBySlug, ParsedList, GoodFields, Line;
    assert ScanPhysical(p4, lines[4]) == Return(Ok(f));
    assert ScanFrom(lines, 4, p4) == Ok(f);
    assert ScanFrom(lines, 3, p3) == Ok(f);
    assert ScanFrom(lines, 2, p2) == Ok(f);
    assert ScanFrom(lines, 1, p1) == Ok(f);
  }

  lemma MagicAndEnd()
    ensures ScanLine(FRESH, HEADER_MAGIC + "\n") == More(FRESH.(started := true))
    ensures forall p: Progress :: p.started ==> ScanLine(p, HEADER_END + "\n") == Return(CompleteHeader(p))
  {
    TrimLine(HEADER_MAGIC);
    TrimLine(HEADER_END);
  }

  // ------------------------------------------------------- files without a header

  /** `trim` takes white space off both ends, and only that. */
  lemma TrimExactly(s: string) returns (front: string, back: string)
    ensures s == front + Trim(s) + back
    ensures (forall c <- front :: IsWhiteSpace(c)) && forall c <- back :: IsWhiteSpace(c)
    ensures Trim(s) != "" ==> !IsWhiteSpace(Trim(s)[0]) && !IsWhiteSpace(Trim(s)[|Trim(s)| - 1])
  {
    front := TrimStartExactly(s);
    back := TrimEndExactly(TrimStart(s));
    assert front + (Trim(s) + back) == front + Trim(s) + back;
    if Trim(s) != "" {
      assert (Trim(s) + back)[0] == Trim(s)[0];
    }
  }

  lemma {:induction false} TrimStartExactly(s: string) returns (front: string)
    ensures s == front + TrimStart(s) && forall c <- front :: IsWhiteSpace(c)
    ensures TrimStart(s) != "" ==> !IsWhiteSpace(TrimStart(s)[0])
  {
    hide IsWhiteSpace;
    if s != "" && IsWhiteSpace(s[0]) {
      var rest := TrimStartExactly(s[1..]);
      front := [s[0]] + rest;
      assert s == [s[0]] + s[1..];
    } else {
      front := "";
    }
  }

  lemma {:induction false} TrimEndExactly(s: string) returns (back: string)
    ensures s == TrimEnd(s) + back && forall c <- back :: IsWhiteSpace(c)
    ensures TrimEnd(s) != "" ==> !IsWhiteSpace(TrimEnd(s)[|TrimEnd(s)| - 1])
  {
    hide IsWhiteSpace;
    if s != "" && IsWhiteSpace(s[|s| - 1]) {
      var n := |s| - 1;
      var rest := TrimEndExactly(s[..n]);
      back := rest + [s[n]];
      assert s == s[..n] + [s[n]];
    } else {
      back := "";
    }
  }

  /** From line `i` on no header begins: every line that is looked at reads, none starts
      like a header, and the first that is neither blank, nor a percent sign, nor a
      comment ends the search, as do the end of the file and line 128. */
  predicate Headerless(lines: seq<PhysicalLine>, i: nat)
    requires i <= |lines|
    decreases |lines| - i
  {
    i == |lines| || i >= 128 ||
    (lines[i].Readable? &&
     var value := Trim(lines[i].text);
     && !("(DMC2 SCRIPT" <= value)
     && (value == "" || value == "%" || value[0] == ';' || (value[0] == '(' && value[|value| - 1] == ')')
         ==> Headerless(lines, i + 1)))
  }

  /** Such a file, and no other, yields the conservative contract. */
  lemma {:induction false} HeaderlessExactly(lines: seq<PhysicalLine>, i: nat)
    requires i <= |lines|
    ensures var r := ScanFrom(lines, i, FRESH);
            && (r.Ok? && r.value.source == ConservativeDefault <==> Headerless(lines, i))
            && (Headerless(lines, i) ==>
                  r.value.effects == [UnclassifiedMachineCode] && r.value.recovery == AbortTask
                  && r.value.prerequisites == [RunningSession, EstopClear, MachineOn, InterpreterIdle, AllHomed])
    decreases |lines| - i
  {
    if i < |lines| && i < MAX_HEADER_LINES && lines[i].Readable? {
      HeaderlessLine(lines[i].text);
      var step := ScanPhysical(FRESH, lines[i]);
      hide ScanLine, Trim;
      if step.More? {
        if step.p.started {
          StartedIsDeclared(lines, i + 1, step.p);
        } else {
          HeaderlessExactly(lines, i + 1);
        }
      }
    }
  }

  lemma HeaderlessLine(raw: string)
    ensures var value := Trim(raw);
            match ScanLine(FRESH, raw)
            case More(p) =>
              if "(DMC2 SCRIPT" <= value then p.started
              else p == FRESH && (value == "" || value == "%" || value[0] == ';'
                                  || (value[0] == '(' && value[|value| - 1] == ')'))
            case Return(r) =>
              if "(DMC2 SCRIPT" <= value then r.Err?
              else r == Ok(CONSERVATIVE) && !(value == "" || value == "%" || value[0] == ';'
                                              || (value[0] == '(' && value[|value| - 1] == ')'))
  {
    hide Trim;
    assert HEADER_START <= HEADER_MAGIC;
  }

  /** A header that has begun is never the conservative contract. */
  lemma {:induction false} StartedIsDeclared(lines: seq<PhysicalLine>, i: nat, p: Progress)
    requires i <= |lines| && p.started
    ensures var r := ScanFrom(lines, i, p); r.Ok? ==> r.value.source == Header
    decreases |lines| - i
  {
    if i < |lines| && i < MAX_HEADER_LINES && lines[i].Readable? {
      StartedLine(p, lines[i].text);
      var step := ScanPhysical(p, lines[i]);
      hide ScanLine;
      if step.More? {
        StartedIsDeclared(lines, i + 1, step.p);
      }
    }
  }

  lemma StartedLine(p: Progress, raw: string)
    requires p.started
    ensures match ScanLine(p, raw)
            case More(q) => q.started
            case Return(r) => r.Ok? ==> r.value.source == Header
  {
    hide Trim, Inner, ParsedList, LeadingNonCode;
  }
}
