/** Which fault of a header is reported: the first one, by its own name. */
module ScriptErrors {
  import opened Words
  import opened Text
  import opened ScriptValues
  import opened ScriptHeader
  import opened HeaderExact

  // ------------------------------------------------------------------------ lists

  /** What is wrong with item `i`: it is empty, or does not parse, or says again what an
      earlier item says. */
  function ItemFault<T(==)>(field: Field, items: seq<string>, parse: string -> Result<T, ScriptError>, i: nat)
    : Option<ScriptError>
    requires i < |items|
  {
    if items[i] == "" then Some(EmptyListItem(field))
    else
      match parse(items[i])
      case Err(e) => Some(e)
      case Ok(_) =>
        if exists j | 0 <= j < i :: parse(items[j]) == parse(items[i]) then Some(DuplicateListItem(field)) else None
  }

  predicate Faultless<T(==)>(field: Field, items: seq<string>, parse: string -> Result<T, ScriptError>, i: nat) {
    i <= |items| && forall j | 0 <= j < i :: ItemFault(field, items, parse, j).None?
  }

  /** The values of the first `i` items. */
  predicate Taken<T(==)>(items: seq<string>, parse: string -> Result<T, ScriptError>, i: nat, done: seq<T>) {
    i <= |items| && |done| == i && forall j | 0 <= j < i :: parse(items[j]) == Ok(done[j])
  }

  lemma {:induction false} FirstFault<T>(field: Field, items: seq<string>, parse: string -> Result<T, ScriptError>,
                                         i: nat, done: seq<T>) returns (n: nat)
    requires Taken(items, parse, i, done) && Faultless(field, items, parse, i)
    ensures Faultless(field, items, parse, n)
    ensures match ParseItems(field, items[i..], parse, done)
            case Ok(_) => n == |items|
            case Err(e) => n < |items| && ItemFault(field, items, parse, n) == Some(e)
    decreases |items| - i
  {
    if i == |items| {
      n := i;
    } else {
      var rest := items[i..];
      assert rest[0] == items[i] && rest[1..] == items[i + 1..];
      if items[i] == "" || parse(items[i]).Err? {
        n := i;
      } else {
        var value := parse(items[i]).value;
        if value in done {
          var j :| 0 <= j < i && done[j] == value;
          assert parse(items[j]) == parse(items[i]);
          n := i;
        } else {
          forall j | 0 <= j < i ensures parse(items[j]) != parse(items[i]) {
            assert parse(items[j]) == Ok(done[j]) && done[j] in done;
          }
          n := FirstFault(field, items, parse, i + 1, done + [value]);
        }
      }
    }
  }

  /** A list is refused for the first of its items that has a fault, by that fault; an
      empty text for being empty. */
  lemma ListFaultExactly<T>(field: Field, raw: string, parse: string -> Result<T, ScriptError>) returns (n: nat)
    ensures raw == "" ==> ParsedList(field, raw, parse) == Err(EmptyField(field))
    ensures raw != "" ==>
              var items := Split(raw, ';');
              && Faultless(field, items, parse, n)
              && match ParsedList(field, raw, parse)
                 case Ok(_) => n == |items|
                 case Err(e) => n < |items| && ItemFault(field, items, parse, n) == Some(e)
  {
    n := FirstFault(field, Split(raw, ';'), parse, 0, []);
  }

  lemma ItemErrors(s: string)
    ensures ParseEffect(s).Err? ==> ParseEffect(s).error == UnknownEffect
    ensures ParsePrerequisite(s) == Err(UnsupportedPrerequisite) <==>
            s in {PrerequisiteName(DesktopSession), PrerequisiteName(PhysicalEstopReleased)}
    ensures ParsePrerequisite(s).Err? ==> ParsePrerequisite(s).error in {UnknownPrerequisite, UnsupportedPrerequisite}
  {
  }

  // ----------------------------------------------------------------------- headers

  /** The fault of a line inside a header that has the fields of `p` so far. */
  ghost function LineFault(p: Progress, raw: string): Option<ScriptError> {
    var value := Trim(raw);
    if ByteLength(raw) > 4096 then Some(HeaderLineTooLong)
    else if value == "(DMC2 END)" then
      if p.effects.None? then Some(MissingField(EFFECTS))
      else if p.prerequisites.None? then Some(MissingField(REQUIRES))
      else if p.recovery.None? then Some(MissingField(RECOVERY))
      else None
    else if value == "" then None
    else
      match Inner(value)
      case None => Some(HeaderUnexpectedLine)
      case Some((field, text)) => FieldFault(p, field, text)
  }

  /** A text that does not parse comes before a field that is there already. */
  ghost function FieldFault(p: Progress, field: string, text: string): Option<ScriptError> {
    if field == "EFFECTS" then
      match ParsedList(EFFECTS, text, ParseEffect)
      case Err(e) => Some(e)
      case Ok(_) => if p.effects.Some? then Some(DuplicateField(EFFECTS)) else None
    else if field == "REQUIRES" then
      match ParsedList(REQUIRES, text, ParsePrerequisite)
      case Err(e) => Some(e)
      case Ok(_) => if p.prerequisites.Some? then Some(DuplicateField(REQUIRES)) else None
    else if field == "RECOVERY" then
      if forall r :: text != RecoverySlug(r) then Some(UnknownRecovery)
      else if p.recovery.Some? then Some(DuplicateField(RECOVERY))
      else None
    else Some(UnknownField)
  }

  lemma SlugIsKnown(s: string)
    ensures RecoveryBySlug(s).None? <==> forall r :: s != RecoverySlug(r)
  {
    forall r: Recovery ensures RecoveryBySlug(s) == Some(r) <==> s == RecoverySlug(r) {
      RecoverySlugExact(r, s);
    }
    hide RecoverySlug, RecoveryBySlug;
    if RecoveryBySlug(s).Some? {
      assert s == RecoverySlug(RecoveryBySlug(s).value);
    }
  }

  /** Inside a header, a line is refused exactly for its fault. */
  lemma LineFaultExactly(p: Progress, raw: string)
    requires p.started
    ensures match LineFault(p, raw)
            case Some(e) => ScanLine(p, raw) == Return(Err(e))
            case None => ScanLine(p, raw).More? || (ScanLine(p, raw).Return? && ScanLine(p, raw).r.Ok?)
  {
    if ByteLength(raw) > 4096 {
      TooLong(p, raw);
    } else {
      StartedLineIs(p, raw);
      hide ScanLine, Trim;
      if Inner(Trim(raw)).Some? {
        SlugIsKnown(Inner(Trim(raw)).value.1);
      }
      hide Inner, ParsedList, RecoverySlug, RecoveryBySlug;
    }
  }

  /** Before a header, only a line that starts like one can be refused: for its length,
      or for not being the one first line. */
  lemma OpeningFaultExactly(raw: string)
    ensures var value, step := Trim(raw), ScanLine(FRESH, raw);
            (exists e :: step == Return(Err(e))) <==>
            "(DMC2 SCRIPT" <= value && (ByteLength(raw) > 4096 || value != "(DMC2 SCRIPT 1)")
    ensures var value, step := Trim(raw), ScanLine(FRESH, raw);
            "(DMC2 SCRIPT" <= value && (ByteLength(raw) > 4096 || value != "(DMC2 SCRIPT 1)") ==>
              step == Return(Err(if ByteLength(raw) > 4096 then HeaderLineTooLong else HeaderMagic))
  {
    hide Trim;
    assert "(DMC2 SCRIPT" <= "(DMC2 SCRIPT 1)";
  }

  /** A header that has begun and not ended when the file, or line 128, does; and a line
      that cannot be read, wherever it stands in what is looked at. */
  lemma UnfinishedFile(lines: seq<PhysicalLine>, i: nat, p: Progress)
    requires i <= |lines|
    ensures (i == |lines| || i >= 128) && p.started ==> ScanFrom(lines, i, p) == Err(UnterminatedHeader)
    ensures i < |lines| && i < 128 && lines[i].Unreadable? ==> ScanFrom(lines, i, p) == Err(ReadFailure)
  {
  }
}
