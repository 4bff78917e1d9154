/** Exactly which files declare which contract in their header. */
module HeaderExact {
  import opened Words
  import opened Text
  import opened ScriptValues
  import opened ScriptHeader

  function FieldLine(name: string, text: string): string {
    "(DMC2 " + name + " " + text + ")"
  }

  function EffectsLine(f: Fields): string {
    FieldLine("EFFECTS", ListText(EffectName, f.effects))
  }

  function RequiresLine(f: Fields): string {
    FieldLine("REQUIRES", ListText(PrerequisiteName, f.prerequisites))
  }

  function RecoveryLine(f: Fields): string {
    FieldLine("RECOVERY", RecoverySlug(f.recovery))
  }

  /** Line `i` is within the first 128, can be read, and is no longer than 4096 bytes. */
  predicate Legible(lines: seq<PhysicalLine>, i: nat) {
    i < |lines| && i < 128 && lines[i].Readable? && ByteLength(lines[i].text) <= 4096
  }

  /** From line `i` on the rest of a header for `f`: blank lines, each of the three
      field lines that is still missing, once and in any order, and then the end. */
  predicate Completes(lines: seq<PhysicalLine>, i: nat, f: Fields, effects: bool, needs: bool, recovery: bool)
    decreases |lines| - i
  {
    && Legible(lines, i)
    && var value := Trim(lines[i].text);
    if value == "(DMC2 END)" then effects && needs && recovery
    else if value == "" then Completes(lines, i + 1, f, effects, needs, recovery)
    else if value == EffectsLine(f) then !effects && Completes(lines, i + 1, f, true, needs, recovery)
    else if value == RequiresLine(f) then !needs && Completes(lines, i + 1, f, effects, true, recovery)
    else value == RecoveryLine(f) && !recovery && Completes(lines, i + 1, f, effects, needs, true)
  }

  predicate Opens(value: string) {
    value == "(DMC2 SCRIPT 1)"
  }

  /** A line before the header: blank, a percent sign or a comment, and not one that
      starts like a header. */
  predicate IsPreamble(value: string) {
    && !("(DMC2 SCRIPT" <= value)
    && (value == "" || value == "%" || value[0] == ';' || (value[0] == '(' && value[|value| - 1] == ')'))
  }

  /** From line `i` on: nothing but blank lines, percent signs and comments, then the
      first line of a header, and the rest of a header for `f`. */
  predicate Declares(lines: seq<PhysicalLine>, i: nat, f: Fields)
    decreases |lines| - i
  {
    && i < |lines| && i < 128 && lines[i].Readable?
    && var value := Trim(lines[i].text);
    if Opens(value) then ByteLength(lines[i].text) <= 4096 && Completes(lines, i + 1, f, false, false, false)
    else IsPreamble(value) && Declares(lines, i + 1, f)
  }

  // ------------------------------------------------------------------ one line

  lemma InnerExactly(value: string, field: string, raw: string)
    requires ' ' !in field
    ensures Inner(value) == Some((field, raw)) <==> value == FieldLine(field, raw)
  {
    if value == FieldLine(field, raw) {
      assert value == Line(field, raw);
      InnerOfLine(field, raw);
    }
    if Inner(value) == Some((field, raw)) {
      var rest := value[|HEADER_PREFIX|..];
      var body := rest[..|rest| - 1];
      PartitionExactly(body, ' ', field, raw);
      assert rest == body + ")" && value == HEADER_PREFIX + rest;
    }
  }

  /** A field line has one name and one text. */
  lemma FieldLineDiffers(field: string, raw: string, name: string, text: string)
    requires ' ' !in field && ' ' !in name
    ensures FieldLine(field, raw) == FieldLine(name, text) <==> field == name && raw == text
  {
    InnerExactly(FieldLine(field, raw), field, raw);
    InnerExactly(FieldLine(field, raw), name, text);
    hide Inner, FieldLine;
  }

  /** The progress `p` has exactly those fields of `f` that the flags name. */
  predicate Agrees(p: Progress, f: Fields, effects: bool, needs: bool, recovery: bool) {
    && p.started
    && p.effects == (if effects then Some(f.effects) else None)
    && p.prerequisites == (if needs then Some(f.prerequisites) else None)
    && p.recovery == (if recovery then Some(f.recovery) else None)
  }

  /** Whatever `p` already has, `f` has too. */
  predicate Within(p: Progress, f: Fields) {
    && (p.effects.Some? ==> p.effects.value == f.effects)
    && (p.prerequisites.Some? ==> p.prerequisites.value == f.prerequisites)
    && (p.recovery.Some? ==> p.recovery.value == f.recovery)
  }

  lemma LineKeeps(p: Progress, raw: string, f: Fields)
    requires p.started
    ensures match ScanLine(p, raw)
            case More(q) => q.started && (Within(q, f) ==> Within(p, f))
            case Return(r) => r.Ok? ==> r.value.source == Header && (r.value == f ==> Within(p, f))
  {
    hide Trim, Inner, ParsedList, RecoveryBySlug;
  }

  /** A field once read is in every contract the header can still yield. */
  lemma {:induction false} NothingIsForgotten(lines: seq<PhysicalLine>, i: nat, p: Progress, f: Fields)
    requires i <= |lines| && p.started && ScanFrom(lines, i, p) == Ok(f)
    ensures Within(p, f) && f.source == Header
    decreases |lines| - i
  {
    LineKeeps(p, lines[i].text, f);
    var step := ScanPhysical(p, lines[i]);
    hide ScanLine, Within;
    if step.More? {
      NothingIsForgotten(lines, i + 1, step.p, f);
    }
  }

  /** What a field line does to a progress that agrees with `f` so far. */
  lemma FieldLineExactly(p: Progress, value: string, f: Fields, effects: bool, needs: bool, recovery: bool)
    requires GoodFields(f) && Agrees(p, f, effects, needs, recovery) && Inner(value).Some?
    ensures var step := ScanField(p, Inner(value).value.0, Inner(value).value.1);
            if value == EffectsLine(f) then
              if effects then step.Return? && step.r.Err? else step == More(p.(effects := Some(f.effects)))
            else if value == RequiresLine(f) then
              if needs then step.Return? && step.r.Err? else step == More(p.(prerequisites := Some(f.prerequisites)))
            else if value == RecoveryLine(f) then
              if recovery then step.Return? && step.r.Err? else step == More(p.(recovery := Some(f.recovery)))
            else (step.Return? && step.r.Err?) || (step.More? && !Within(step.p, f))
  {
    var (field, raw) := Inner(value).value;
    NoSpaces(field, value, raw);
    InnerExactly(value, field, raw);
    FieldLineDiffers(field, raw, "EFFECTS", ListText(EffectName, f.effects));
    FieldLineDiffers(field, raw, "REQUIRES", ListText(PrerequisiteName, f.prerequisites));
    FieldLineDiffers(field, raw, "RECOVERY", RecoverySlug(f.recovery));
    FieldExactly(p, field, raw, f, effects, needs, recovery);
    hide Inner, ListText, RecoverySlug, FieldLine, ScanField, Agrees, Within;
  }

  lemma FieldExactly(p: Progress, field: string, raw: string, f: Fields, effects: bool, needs: bool, recovery: bool)
    requires GoodFields(f) && Agrees(p, f, effects, needs, recovery)
    ensures var step := ScanField(p, field, raw);
            if field == "EFFECTS" && raw == ListText(EffectName, f.effects) then
              if effects then step.Return? && step.r.Err? else step == More(p.(effects := Some(f.effects)))
            else if field == "REQUIRES" && raw == ListText(PrerequisiteName, f.prerequisites) then
              if needs then step.Return? && step.r.Err? else step == More(p.(prerequisites := Some(f.prerequisites)))
            else if field == "RECOVERY" && raw == RecoverySlug(f.recovery) then
              if recovery then step.Return? && step.r.Err? else step == More(p.(recovery := Some(f.recovery)))
            else (step.Return? && step.r.Err?) || (step.More? && !Within(step.p, f))
  {
    EffectListExactly(raw, f.effects);
    PrerequisiteListExactly(raw, f.prerequisites);
    RecoverySlugExact(f.recovery, raw);
    hide ListText, ParsedList, RecoverySlug, RecoveryBySlug, GoodEffects, GoodPrerequisites;
  }

  lemma NoSpaces(field: string, value: string, raw: string)
    requires Inner(value) == Some((field, raw))
    ensures ' ' !in field
  {
    var rest := value[|HEADER_PREFIX|..];
    PartitionCuts(rest[..|rest| - 1], ' ');
  }

  // ---------------------------------------------------------------- whole headers

  lemma {:induction false} CompletesExactly(lines: seq<PhysicalLine>, i: nat, p: Progress, f: Fields,
                                            effects: bool, needs: bool, recovery: bool)
    requires i <= |lines| && GoodFields(f) && f.source == Header && Agrees(p, f, effects, needs, recovery)
    ensures ScanFrom(lines, i, p) == Ok(f) <==> Completes(lines, i, f, effects, needs, recovery)
    decreases |lines| - i
  {
    if i < |lines| && i < 128 && lines[i].Readable? && ByteLength(lines[i].text) <= 4096 {
      var value := Trim(lines[i].text);
      var step := ScanPhysical(p, lines[i]);
      StartedLineIs(p, lines[i].text);
      FieldLinesAreInner(f);
      hide ScanLine, Trim, EffectsLine, RequiresLine, RecoveryLine, GoodFields;
      if value == "(DMC2 END)" {
      } else if value == "" {
        CompletesExactly(lines, i + 1, p, f, effects, needs, recovery);
      } else if Inner(value).Some? {
        FieldLineExactly(p, value, f, effects, needs, recovery);
        hide ScanField, Inner;
        if step.More? && value == EffectsLine(f) {
          CompletesExactly(lines, i + 1, step.p, f, true, needs, recovery);
        } else if step.More? && value == RequiresLine(f) {
          CompletesExactly(lines, i + 1, step.p, f, effects, true, recovery);
        } else if step.More? && value == RecoveryLine(f) {
          CompletesExactly(lines, i + 1, step.p, f, effects, needs, true);
        } else if step.More? && ScanFrom(lines, i + 1, step.p) == Ok(f) {
          StillStarted(p, lines[i].text);
          NothingIsForgotten(lines, i + 1, step.p, f);
        }
      }
    } else if i < |lines| && i < 128 && lines[i].Readable? {
      TooLong(p, lines[i].text);
      hide ScanLine, Trim;
    }
  }

  lemma StartedLineIs(p: Progress, raw: string)
    requires p.started && ByteLength(raw) <= 4096
    ensures var value := Trim(raw);
            ScanLine(p, raw) ==
            if value == "(DMC2 END)" then Return(CompleteHeader(p))
            else if value == "" then More(p)
            else if Inner(value).None? then Return(Err(HeaderUnexpectedLine))
            else ScanField(p, Inner(value).value.0, Inner(value).value.1)
  {
    hide Trim, Inner, ScanField;
  }

  lemma TooLong(p: Progress, raw: string)
    requires p.started && ByteLength(raw) > 4096
    ensures ScanLine(p, raw) == Return(Err(HeaderLineTooLong))
  {
    hide Trim;
  }

  lemma StillStarted(p: Progress, raw: string)
    requires p.started
    ensures ScanLine(p, raw).More? ==> ScanLine(p, raw).p.started
  {
    hide Trim, Inner, ParsedList;
  }

  lemma FieldLinesAreInner(f: Fields)
    ensures Inner(EffectsLine(f)).Some? && Inner(RequiresLine(f)).Some? && Inner(RecoveryLine(f)).Some?
    ensures "(DMC2 END)" !in {EffectsLine(f), RequiresLine(f), RecoveryLine(f)}
    ensures "" !in {EffectsLine(f), RequiresLine(f), RecoveryLine(f)}
  {
    FieldLineIsInner("EFFECTS", ListText(EffectName, f.effects));
    FieldLineIsInner("REQUIRES", ListText(PrerequisiteName, f.prerequisites));
    FieldLineIsInner("RECOVERY", RecoverySlug(f.recovery));
    hide Inner, FieldLine, ListText, RecoverySlug;
  }

  lemma FieldLineIsInner(name: string, text: string)
    requires ' ' !in name
    ensures Inner(FieldLine(name, text)).Some? && FieldLine(name, text) !in {"", "(DMC2 END)"}
  {
    InnerExactly(FieldLine(name, text), name, text);
    NoEndInside();
    assert FieldLine(name, text)[0] == '(';
    hide Inner, FieldLine;
  }

  lemma NoEndInside()
    ensures Inner("(DMC2 END)").None?
  {
    var value := "(DMC2 END)";
    assert value[|HEADER_PREFIX|..] == "END)" && "END)"[..3] == "END";
    NoSeparator("END", ' ');
  }

  /** A file yields a contract of its own if and only if its header declares it, whatever
      the order of the fields; and no file declares two. */
  lemma {:induction false} HeaderExactly(lines: seq<PhysicalLine>, i: nat, f: Fields)
    requires i <= |lines| && f.source == Header
    ensures ScanFrom(lines, i, FRESH) == Ok(f) <==> GoodFields(f) && Declares(lines, i, f)
    decreases |lines| - i
  {
    hide GoodFields, Opens, IsPreamble, Completes, ScanLine, Trim;
    AcceptedHeaderIsGood(lines, i, FRESH);
    if GoodFields(f) && i < |lines| && i < 128 && lines[i].Readable? {
      var raw := lines[i].text;
      FreshLineIs(raw);
      if Opens(Trim(raw)) {
        if ByteLength(raw) <= 4096 {
          FreshAgrees(f);
          CompletesExactly(lines, i + 1, FRESH.(started := true), f, false, false, false);
        }
      } else if IsPreamble(Trim(raw)) {
        HeaderExactly(lines, i + 1, f);
      }
    }
  }

  lemma FreshAgrees(f: Fields)
    ensures Agrees(FRESH.(started := true), f, false, false, false)
  {
  }

  lemma FreshLineIs(raw: string)
    ensures var value, step := Trim(raw), ScanLine(FRESH, raw);
            if Opens(value) then
              step == (if ByteLength(raw) <= 4096 then More(FRESH.(started := true))
                       else Return(Err(HeaderLineTooLong)))
            else if IsPreamble(value) then step == More(FRESH)
            else step.Return? && (step.r.Ok? ==> step.r.value == CONSERVATIVE)
  {
    hide Trim;
    assert "(DMC2 SCRIPT" <= "(DMC2 SCRIPT 1)";
  }
}
