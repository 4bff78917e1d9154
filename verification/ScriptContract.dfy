/** The script contract across two languages: what the Rust tool prints, the AXIS
    reader recovers, and it accepts nothing else. */
module ScriptContract {
  import opened Words
  import opened Hexadecimal
  import opened Text
  import opened ScriptValues

  datatype Contract = Contract(
    path: seq<u8>,
    source: Source,
    effects: seq<Effect>,
    prerequisites: seq<Prerequisite>,
    recovery: Recovery,
    bytes: u64,
    fnv1a64: u64)

  predicate Valid(c: Contract) {
    && c.path != []
    && c.effects != [] && Distinct(c.effects)
    && c.prerequisites != [] && Distinct(c.prerequisites)
    && forall p <- c.prerequisites :: Supported(p)
  }

  method Hex(bytes: seq<u8>) returns (encoded: string)
    ensures encoded == HexText(bytes)
  {
    hide HexChar;
    encoded := "";
    for i := 0 to |bytes|
      invariant HexText(bytes) == encoded + HexText(bytes[i..])
    {
      assert bytes[i..][1..] == bytes[i + 1..];
      var pair, rest := [HexChar(bytes[i] / 16), HexChar(bytes[i] % 16)], HexText(bytes[i + 1..]);
      assert HexText(bytes[i..]) == pair + rest;
      assert encoded + (pair + rest) == (encoded + pair) + rest;
      encoded := encoded + pair;
    }
  }

  // ------------------------------------------------------------------- the printer

  const FIELD_COUNT := 9
  const FORMAT := "DMC2_SCRIPT_CONTRACT_V1"

  function FieldName(i: nat): string
    requires i < FIELD_COUNT
  {
    match i
    case 0 => "format"
    case 1 => "path_hex"
    case 2 => "content_bytes"
    case 3 => "content_fnv1a64"
    case 4 => "contract_source"
    case 5 => "effects"
    case 6 => "prerequisites"
    case 7 => "recovery_class"
    case _ => "recovery_slug"
  }

  function FieldIndex(s: string): nat {
    if s == "format" then 0
    else if s == "path_hex" then 1
    else if s == "content_bytes" then 2
    else if s == "content_fnv1a64" then 3
    else if s == "contract_source" then 4
    else if s == "effects" then 5
    else if s == "prerequisites" then 6
    else if s == "recovery_class" then 7
    else 8
  }

  lemma FieldNamesDiffer(i: nat)
    requires i < FIELD_COUNT
    ensures FieldIndex(FieldName(i)) == i
  {
  }

  lemma FieldNameIsWord(i: nat)
    requires i < FIELD_COUNT
    ensures Word(FieldName(i))
  {
    match i
    case 0 => assert Word("format");
    case 1 => assert Word("path_hex");
    case 2 => assert Word("content_bytes");
    case 3 => assert Word("content_fnv1a64");
    case 4 => assert Word("contract_source");
    case _ => LastFieldNameIsWord(i);
  }

  lemma LastFieldNameIsWord(i: nat)
    requires 5 <= i < FIELD_COUNT
    ensures Word(FieldName(i))
  {
    match i
    case 5 => assert Word("effects");
    case 6 => assert Word("prerequisites");
    case 7 => assert Word("recovery_class");
    case _ => assert Word("recovery_slug");
  }

  lemma WordIsOneLine(s: string)
    requires Word(s)
    ensures '=' !in s && ';' !in s && Unbroken(s) && IsAscii(s)
  {
  }

  function Values(c: Contract): seq<string> {
    [FORMAT, HexText(c.path), Digits(c.bytes), HexDigits(c.fnv1a64, 16), SourceName(c.source),
     ListText(EffectName, c.effects), ListText(PrerequisiteName, c.prerequisites), RecoveryName(c.recovery),
     RecoverySlug(c.recovery)]
  }

  function Lines(values: seq<string>): (lines: seq<string>)
    requires |values| == FIELD_COUNT
    ensures |lines| == FIELD_COUNT
  {
    seq(FIELD_COUNT, i requires 0 <= i < FIELD_COUNT => FieldName(i) + "=" + values[i])
  }

  function LinesText(lines: seq<string>): string {
    if lines == [] then "" else lines[0] + "\n" + LinesText(lines[1..])
  }

  function Printed(c: Contract): string {
    LinesText(Lines(Values(c)))
  }

  // -------------------------------------------------------------------- the reader

  datatype ReaderError = InspectionProtocolInvalid | InspectionPathMismatch | PathIdentityUnavailable

  /** What comparing the requested with the printed path finds. */
  datatype Identity = SameFile | OtherFile | Unreadable

  predicate Breaks(c: char) {
    c == '\n' || c == '\r' || c as int == 11 || c as int == 12 || 28 <= c as int <= 30
  }

  predicate Unbroken(s: string) {
    forall c | c in s :: !Breaks(c)
  }

  function FirstBreak(s: string): (n: nat)
    ensures n <= |s|
  {
    if s == "" || Breaks(s[0]) then 0 else 1 + FirstBreak(s[1..])
  }

  /** Python's `splitlines` on ASCII text. */
  function SplitLines(s: string): seq<string>
    decreases |s|
  {
    var n := FirstBreak(s);
    if s == "" then []
    else if n == |s| then [s]
    else if s[n] == '\r' && n + 1 < |s| && s[n + 1] == '\n' then [s[..n]] + SplitLines(s[n + 2..])
    else [s[..n]] + SplitLines(s[n + 1..])
  }

  lemma {:induction false} FirstBreakOf(line: string, rest: string)
    requires Unbroken(line)
    ensures FirstBreak(line + "\n" + rest) == |line|
  {
    if line != "" {
      assert (line + "\n" + rest)[1..] == line[1..] + "\n" + rest;
      FirstBreakOf(line[1..], rest);
    }
  }

  /** Before the first of the seven line breaks of ASCII stands one line; a carriage
      return and the line feed after it are one break; the last line needs none. */
  lemma SplitsAtBreaks(line: string, c: char, rest: string)
    requires forall x <- line :: x as int !in {10, 11, 12, 13, 28, 29, 30}
    requires c as int in {10, 11, 12, 13, 28, 29, 30}
    ensures SplitLines(line) == if line == "" then [] else [line]
    ensures SplitLines(line + [c] + rest) ==
            [line] + SplitLines(if c == '\r' && rest != "" && rest[0] == '\n' then rest[1..] else rest)
  {
    var s, n := line + [c] + rest, |line|;
    FirstBreakIs(line, "");
    FirstBreakIs(line, [c] + rest);
    assert line + "" == line && line + ([c] + rest) == s;
    hide FirstBreak;
    assert s[..n] == line && s[n] == c && s[n + 1..] == rest;
    assert rest != "" ==> s[n + 1] == rest[0] && s[n + 2..] == rest[1..];
  }

  lemma {:induction false} FirstBreakIs(line: string, rest: string)
    requires forall x <- line :: x as int !in {10, 11, 12, 13, 28, 29, 30}
    requires rest != "" ==> rest[0] as int in {10, 11, 12, 13, 28, 29, 30}
    ensures FirstBreak(line + rest) == |line|
  {
    if line != "" {
      assert (line + rest)[1..] == line[1..] + rest && line[0] in line;
      assert forall x <- line[1..] :: x in line;
      FirstBreakIs(line[1..], rest);
    } else {
      assert line + rest == rest;
    }
  }

  lemma {:induction false} SplitLinesOfTerminated(lines: seq<string>)
    requires forall line <- lines :: Unbroken(line)
    ensures SplitLines(LinesText(lines)) == lines
  {
    if lines != [] {
      var s := LinesText(lines);
      FirstBreakOf(lines[0], LinesText(lines[1..]));
      SplitLinesOfTerminated(lines[1..]);
      assert s[..|lines[0]|] == lines[0] && s[|lines[0]| + 1..] == LinesText(lines[1..]);
    }
  }

  /** The values of lines i..9, if each names its field. */
  function FieldValues(lines: seq<string>, i: nat): Option<seq<string>>
    requires |lines| == FIELD_COUNT && i <= FIELD_COUNT
    decreases FIELD_COUNT - i, lines
  {
    if i == FIELD_COUNT then Some([])
    else
      var cut, rest := Partition(lines[i], '='), FieldValues(lines, i + 1);
      if cut.None? || cut.value.0 != FieldName(i) || rest.None? then None else Some([cut.value.1] + rest.value)
  }

  predicate LineIs(line: string, j: nat, value: string)
    requires j < FIELD_COUNT
  {
    line == FieldName(j) + "=" + value
  }

  lemma LineExactly(line: string, j: nat, value: string)
    requires j < FIELD_COUNT
    ensures Partition(line, '=') == Some((FieldName(j), value)) <==> LineIs(line, j, value)
  {
    FieldNameIsWord(j);
    hide FieldName;
    WordIsOneLine(FieldName(j));
    PartitionExactly(line, '=', FieldName(j), value);
  }

  lemma {:induction false} FieldValuesExactly(lines: seq<string>, i: nat, values: seq<string>)
    requires |lines| == FIELD_COUNT && i <= FIELD_COUNT
    ensures FieldValues(lines, i) == Some(values) <==>
            i + |values| == FIELD_COUNT
            && forall j | i <= j < FIELD_COUNT :: LineIs(lines[j], j, values[j - i])
    decreases FIELD_COUNT - i
  {
    hide FieldName, LineIs, Partition;
    if i < FIELD_COUNT {
      if values != [] {
        LineExactly(lines[i], i, values[0]);
        FieldValuesExactly(lines, i + 1, values[1..]);
        assert values == [values[0]] + values[1..];
      }
    }
  }

  // The values before line i are `seen`.
  predicate ReadSoFar(lines: seq<string>, i: nat, seen: seq<string>)
    requires |lines| == FIELD_COUNT && i <= FIELD_COUNT
  {
    FieldValues(lines, 0) ==
    if FieldValues(lines, i).None? then None else Some(seen + FieldValues(lines, i).value)
  }

  lemma FieldStep(lines: seq<string>, i: nat, seen: seq<string>)
    requires |lines| == FIELD_COUNT && i < FIELD_COUNT && ReadSoFar(lines, i, seen)
    ensures var cut := Partition(lines[i], '=');
            if cut.None? || cut.value.0 != FieldName(i) then FieldValues(lines, 0).None?
            else ReadSoFar(lines, i + 1, seen + [cut.value.1])
  {
    hide FieldName, Partition;
    var cut, after := Partition(lines[i], '='), FieldValues(lines, i + 1);
    if cut.Some? && cut.value.0 == FieldName(i) && after.Some? {
      assert seen + ([cut.value.1] + after.value) == (seen + [cut.value.1]) + after.value;
    }
  }

  lemma FieldsStart(lines: seq<string>)
    requires |lines| == FIELD_COUNT
    ensures ReadSoFar(lines, 0, [])
  {
    assert FieldValues(lines, 0).Some? ==> [] + FieldValues(lines, 0).value == FieldValues(lines, 0).value;
  }

  lemma FieldsEnd(lines: seq<string>, seen: seq<string>)
    requires |lines| == FIELD_COUNT && ReadSoFar(lines, FIELD_COUNT, seen)
    ensures FieldValues(lines, 0) == Some(seen)
  {
    assert seen + [] == seen;
  }

  /** The dictionary holds the first |values| fields and no other. */
  predicate Recorded(parsed: map<string, string>, values: seq<string>) {
    && |values| <= FIELD_COUNT
    && (forall f <- parsed :: FieldIndex(f) < |values|)
    && forall j | 0 <= j < |values| :: FieldName(j) in parsed && parsed[FieldName(j)] == values[j]
  }

  lemma RecordedStep(parsed: map<string, string>, values: seq<string>)
    requires Recorded(parsed, values) && |values| < FIELD_COUNT
    ensures FieldName(|values|) !in parsed
    ensures forall value :: Recorded(parsed[FieldName(|values|) := value], values + [value])
  {
    hide FieldName, FieldIndex;
    FieldNamesDiffer(|values|);
  }

  /** The loop over the nine lines, which fills a dictionary. */
  method ReadFields(lines: seq<string>) returns (ok: bool, parsed: map<string, string>)
    ensures ok == (|lines| == FIELD_COUNT && FieldValues(lines, 0).Some?)
    ensures ok ==> |FieldValues(lines, 0).value| == FIELD_COUNT && Recorded(parsed, FieldValues(lines, 0).value)
  {
    parsed := map[];
    if |lines| != FIELD_COUNT {
      return false, parsed;
    }
    hide FieldName, Partition, FieldValues, ReadSoFar;
    assert Recorded(parsed, []);
    hide Recorded;
    ghost var seen: seq<string> := [];
    FieldsStart(lines);
    for i := 0 to FIELD_COUNT
      invariant |seen| == i && ReadSoFar(lines, i, seen) && Recorded(parsed, seen)
    {
      var cut := Partition(lines[i], '=');
      FieldStep(lines, i, seen);
      RecordedStep(parsed, seen);
      if cut.None? || cut.value.0 != FieldName(i) || cut.value.0 in parsed {
        return false, parsed;
      }
      parsed := parsed[FieldName(i) := cut.value.1];
      seen := seen + [cut.value.1];
    }
    FieldsEnd(lines, seen);
    return true, parsed;
  }

  function ParseDecimal(raw: string): Option<u64> {
    if !CanonicalUnsigned(raw) then None
    else
      CanonicalIsDigits(raw);
      if Value(raw) > U64_MAX then None else Some(Value(raw))
  }

  lemma DecimalExact(raw: string, n: u64)
    ensures ParseDecimal(raw) == Some(n) <==> raw == Digits(n)
  {
    ValueOfDigits(n);
    if ParseDecimal(raw) == Some(n) {
      CanonicalIsDigits(raw);
      DigitsOfValue(raw);
    }
  }

  function ParseHash(raw: string): Option<u64> {
    if |raw| != 16 || HexValue(raw).None? then None
    else
      HexValueBound(raw);
      SixteenDigits();
      Some(HexValue(raw).value)
  }

  lemma HashExact(raw: string, n: u64)
    ensures ParseHash(raw) == Some(n) <==> raw == HexDigits(n, 16)
  {
    SixteenDigits();
    HexValueOfDigits(n, 16);
    if ParseHash(raw) == Some(n) {
      HexDigitsOfValue(raw);
    }
  }

  function ParsePath(raw: string): Option<seq<u8>> {
    if raw == "" then None else HexBytes(raw)
  }

  lemma PathExact(raw: string, path: seq<u8>)
    ensures ParsePath(raw) == Some(path) <==> path != [] && raw == HexText(path)
  {
    HexBytesOfText(path);
    if HexBytes(raw).Some? {
      HexTextOfBytes(raw);
    }
  }

  function EffectByName(s: string): Option<Effect> {
    match ParseEffect(s) case Ok(e) => Some(e) case Err(_) => None
  }

  function PrerequisiteByName(s: string): Option<Prerequisite> {
    match ParsePrerequisite(s) case Ok(p) => Some(p) case Err(_) => None
  }

  predicate AnyEffect(e: Effect) {
    true
  }

  lemma EffectCodec()
    ensures Codec(EffectName, AnyEffect, EffectByName)
  {
    hide EffectName, ParseEffect;
    forall e, s ensures EffectByName(s) == Some(e) <==> AnyEffect(e) && s == EffectName(e) {
      EffectExact(e, s);
    }
    forall e ensures EffectName(e) != "" && ';' !in EffectName(e) {
      EffectIsWord(e);
      WordIsOneLine(EffectName(e));
    }
  }

  lemma PrerequisiteCodec()
    ensures Codec(PrerequisiteName, Supported, PrerequisiteByName)
  {
    hide PrerequisiteName, ParsePrerequisite;
    forall p, s ensures PrerequisiteByName(s) == Some(p) <==> Supported(p) && s == PrerequisiteName(p) {
      PrerequisiteExact(p, s);
    }
    forall p ensures PrerequisiteName(p) != "" && ';' !in PrerequisiteName(p) {
      PrerequisiteIsWord(p);
      WordIsOneLine(PrerequisiteName(p));
    }
  }

  /** The nine values, read in the order in which the reader checks them. */
  function Decode(values: seq<string>, identity: Identity): Result<Contract, ReaderError>
    requires |values| == FIELD_COUNT
  {
    var path := ParsePath(values[1]);
    if values[0] != FORMAT || path.None? then Err(InspectionProtocolInvalid)
    else if identity == Unreadable then Err(PathIdentityUnavailable)
    else if identity == OtherFile then Err(InspectionPathMismatch)
    else
      var bytes, hash, source := ParseDecimal(values[2]), ParseHash(values[3]), SourceByName(values[4]);
      var effects, prerequisites := EnumList(values[5], EffectByName), EnumList(values[6], PrerequisiteByName);
      var recovery := RecoveryByName(values[7]);
      if bytes.None? || hash.None? || source.None? || effects.None? || prerequisites.None? || recovery.None?
         || values[8] != RecoverySlug(recovery.value)
      then Err(InspectionProtocolInvalid)
      else
        Ok(Contract(path.value, source.value, effects.value, prerequisites.value, recovery.value, bytes.value,
                    hash.value))
  }

  function ParsedOutput(output: string, identity: Identity): Result<Contract, ReaderError> {
    var lines := SplitLines(output);
    if !IsAscii(output) || |lines| != FIELD_COUNT || FieldValues(lines, 0).None? then
      Err(InspectionProtocolInvalid)
    else
      FieldValuesCount(lines, 0);
      Decode(FieldValues(lines, 0).value, identity)
  }

  lemma {:induction false} FieldValuesCount(lines: seq<string>, i: nat)
    requires |lines| == FIELD_COUNT && i <= FIELD_COUNT
    ensures FieldValues(lines, i).Some? ==> |FieldValues(lines, i).value| == FIELD_COUNT - i
    decreases FIELD_COUNT - i
  {
    if FieldValues(lines, i).Some? {
      FieldValuesExactly(lines, i, FieldValues(lines, i).value);
    }
  }

  /** Each check accepts one text per value, so the nine values determine the
      contract and the contract determines the nine values. */
  lemma DecodeExactly(values: seq<string>, c: Contract)
    requires |values| == FIELD_COUNT
    ensures Decode(values, SameFile) == Ok(c) <==> Valid(c) && values == Values(c)
  {
    hide ParsePath, ParseDecimal, ParseHash, EnumList, RecoveryByName, SourceByName, RecoveryName, RecoverySlug,
         SourceName, ListText, HexText, Digits, HexDigits, Distinct;
    PathExact(values[1], c.path);
    DecimalExact(values[2], c.bytes);
    HashExact(values[3], c.fnv1a64);
    SourceExact(values[4], c.source);
    EffectCodec();
    EnumListExactly(EffectName, AnyEffect, EffectByName, values[5], c.effects);
    PrerequisiteCodec();
    EnumListExactly(PrerequisiteName, Supported, PrerequisiteByName, values[6], c.prerequisites);
    RecoveryNameExact(c.recovery, values[7]);
    hide Codec;
  }

  lemma SourceExact(s: string, source: Source)
    ensures SourceByName(s) == Some(source) <==> s == SourceName(source)
  {
  }

  /** `parse_inspection_output`, on the dictionary its loop filled. */
  method ParseInspectionOutput(output: string, identity: Identity) returns (r: Result<Contract, ReaderError>)
    ensures r == ParsedOutput(output, identity)
  {
    hide Decode, FieldValues, SplitLines;
    if !IsAscii(output) {
      return Err(InspectionProtocolInvalid);
    }
    var lines := SplitLines(output);
    var ok, parsed := ReadFields(lines);
    if !ok {
      return Err(InspectionProtocolInvalid);
    }
    ghost var values := FieldValues(lines, 0).value;
    var read := seq(FIELD_COUNT, i requires 0 <= i < FIELD_COUNT && FieldName(i) in parsed => parsed[FieldName(i)]);
    assert read == values;
    return Decode(read, identity);
  }

  // ------------------------------------------------------------------ the theorems

  /** The reader accepts exactly the nine lines the printer prints for a valid
      contract, and recovers that contract. */
  lemma ReaderAcceptsExactlyPrintouts(output: string, c: Contract)
    ensures ParsedOutput(output, SameFile) == Ok(c) <==>
            Valid(c) && IsAscii(output) && SplitLines(output) == Lines(Values(c))
  {
    assert |Values(c)| == FIELD_COUNT;
    hide Decode, FieldValues, SplitLines, Valid, Values, FieldName, IsAscii;
    var lines := SplitLines(output);
    if |lines| == FIELD_COUNT {
      FieldValuesCount(lines, 0);
      FieldsAreLines(lines, Values(c));
      if FieldValues(lines, 0).Some? {
        DecodeExactly(FieldValues(lines, 0).value, c);
      }
    }
  }

  lemma LinesExactly(lines: seq<string>, values: seq<string>)
    requires |lines| == |values| == FIELD_COUNT
    ensures lines == Lines(values) <==> forall j | 0 <= j < FIELD_COUNT :: LineIs(lines[j], j, values[j])
  {
    hide FieldName;
    if forall j | 0 <= j < FIELD_COUNT :: LineIs(lines[j], j, values[j]) {
      forall j | 0 <= j < FIELD_COUNT ensures lines[j] == Lines(values)[j] {
        assert LineIs(lines[j], j, values[j]);
      }
    }
  }

  /** The nine values are what the nine lines name. */
  lemma FieldsAreLines(lines: seq<string>, values: seq<string>)
    requires |lines| == |values| == FIELD_COUNT
    ensures FieldValues(lines, 0) == Some(values) <==> lines == Lines(values)
  {
    FieldValuesExactly(lines, 0, values);
    LinesExactly(lines, values);
    hide LineIs, Lines, FieldName, FieldValues;
    assert forall j | 0 <= j < FIELD_COUNT :: values[j - 0] == values[j];
  }

  predicate CleanText(s: string) {
    Unbroken(s) && IsAscii(s)
  }

  lemma CleanConcat(a: string, b: string)
    requires CleanText(a) && CleanText(b)
    ensures CleanText(a + b)
  {
  }

  lemma {:induction false} CleanHex(bytes: seq<u8>)
    ensures CleanText(HexText(bytes))
  {
    if bytes != [] {
      CleanHex(bytes[1..]);
      CleanConcat([HexChar(bytes[0] / 16), HexChar(bytes[0] % 16)], HexText(bytes[1..]));
    }
  }

  lemma {:induction false} CleanHexDigits(n: nat, width: nat)
    ensures CleanText(HexDigits(n, width))
  {
    if width > 0 {
      CleanHexDigits(n / 16, width - 1);
      CleanConcat(HexDigits(n / 16, width - 1), [HexChar(n % 16)]);
    }
  }

  lemma {:induction false} CleanDigits(n: nat)
    ensures CleanText(Digits(n))
  {
    assert AllDigits(Digits(n));
  }

  lemma {:induction false} CleanList<T>(name: T -> string, v: seq<T>)
    requires forall x <- v :: CleanText(name(x))
    ensures CleanText(ListText(name, v))
  {
    if |v| == 1 {
      assert Names(name, v) == [name(v[0])];
    } else if |v| > 1 {
      CleanList(name, v[1..]);
      assert Names(name, v)[1..] == Names(name, v[1..]);
      CleanConcat(name(v[0]), ";");
      CleanConcat(name(v[0]) + ";", ListText(name, v[1..]));
    }
  }

  lemma CleanEffects(v: seq<Effect>)
    ensures CleanText(ListText(EffectName, v))
  {
    forall x <- v ensures CleanText(EffectName(x)) {
      EffectIsWord(x);
      WordIsOneLine(EffectName(x));
    }
    CleanList(EffectName, v);
  }

  lemma CleanPrerequisites(v: seq<Prerequisite>)
    ensures CleanText(ListText(PrerequisiteName, v))
  {
    forall x <- v ensures CleanText(PrerequisiteName(x)) {
      PrerequisiteIsWord(x);
      WordIsOneLine(PrerequisiteName(x));
    }
    CleanList(PrerequisiteName, v);
  }

  lemma ValuesAreClean(c: Contract, i: nat)
    requires i < FIELD_COUNT
    ensures CleanText(Values(c)[i])
  {
    hide HexText, HexDigits, Digits, ListText, RecoveryName, RecoverySlug, SourceName, CleanText;
    CleanHex(c.path);
    CleanDigits(c.bytes);
    CleanHexDigits(c.fnv1a64, 16);
    SourceIsWord(c.source);
    WordIsClean(SourceName(c.source));
    CleanEffects(c.effects);
    CleanPrerequisites(c.prerequisites);
    RecoveryNameIsWord(c.recovery);
    WordIsClean(RecoveryName(c.recovery));
    RecoverySlugIsWord(c.recovery);
    WordIsClean(RecoverySlug(c.recovery));
    FormatIsWord();
    WordIsClean(FORMAT);
  }

  lemma WordIsClean(s: string)
    requires Word(s)
    ensures CleanText(s)
  {
    WordIsOneLine(s);
  }

  lemma FormatIsWord()
    ensures Word(FORMAT)
  {
  }

  lemma PrintedLineIsClean(c: Contract, i: nat)
    requires i < FIELD_COUNT
    ensures CleanText(Lines(Values(c))[i])
  {
    ValuesAreClean(c, i);
    FieldNameIsWord(i);
    hide FieldName, Values, Word;
    WordIsClean(FieldName(i));
    assert CleanText("=");
    hide CleanText;
    CleanConcat(FieldName(i), "=");
    CleanConcat(FieldName(i) + "=", Values(c)[i]);
  }

  lemma {:induction false} TerminatedIsAscii(lines: seq<string>)
    requires forall line <- lines :: IsAscii(line)
    ensures IsAscii(LinesText(lines))
  {
    if lines != [] {
      TerminatedIsAscii(lines[1..]);
      assert lines[0] in lines;
      forall c | c in LinesText(lines) ensures c < 128 as char {
        assert c in lines[0] || c in "\n" || c in LinesText(lines[1..]);
      }
    }
  }

  /** Whatever contract the tool prints, AXIS reads back, field by field. */
  lemma PrintThenRead(c: Contract)
    requires Valid(c)
    ensures ParsedOutput(Printed(c), SameFile) == Ok(c)
  {
    var lines := Lines(Values(c));
    hide Values, Valid, Lines, ParsedOutput, SplitLines, LinesText;
    forall i | 0 <= i < |lines| ensures CleanText(lines[i]) {
      PrintedLineIsClean(c, i);
    }
    SplitLinesOfTerminated(lines);
    TerminatedIsAscii(lines);
    ReaderAcceptsExactlyPrintouts(Printed(c), c);
  }

  /** The first two lines of a printout, whatever the others say. */
  predicate NamesPath(values: seq<string>, path: seq<u8>) {
    |values| == FIELD_COUNT && values[0] == "DMC2_SCRIPT_CONTRACT_V1" && path != [] && values[1] == HexText(path)
  }

  lemma DecodesPathFirst(values: seq<string>, identity: Identity)
    requires |values| == FIELD_COUNT
    ensures var r, path := Decode(values, identity), ParsePath(values[1]);
            if values[0] != "DMC2_SCRIPT_CONTRACT_V1" || path.None? then r == Err(InspectionProtocolInvalid)
            else
              match identity
              case Unreadable => r == Err(PathIdentityUnavailable)
              case OtherFile => r == Err(InspectionPathMismatch)
              case SameFile => r !in {Err(InspectionPathMismatch), Err(PathIdentityUnavailable)}
  {
    hide ParsePath, ParseDecimal, ParseHash, EnumList, SourceByName, RecoveryByName, RecoverySlug;
  }

  lemma ParsedIsDecoded(output: string, values: seq<string>, identity: Identity)
    requires |values| == FIELD_COUNT && IsAscii(output) && SplitLines(output) == Lines(values)
    ensures ParsedOutput(output, identity) == Decode(values, identity)
  {
    var lines := SplitLines(output);
    hide SplitLines, FieldValues, Decode, IsAscii, Lines;
    FieldsAreLines(lines, values);
  }

  /** The reader looks at the path before everything else: an output whose nine lines
      name the nine fields, with the format and a path, is refused for the path exactly
      when it names another file or cannot be compared, whatever else it says. */
  lemma OtherPathsAreRefused(output: string, values: seq<string>, path: seq<u8>)
    requires IsAscii(output) && NamesPath(values, path) && SplitLines(output) == Lines(values)
    ensures ParsedOutput(output, OtherFile) == Err(InspectionPathMismatch)
    ensures ParsedOutput(output, Unreadable) == Err(PathIdentityUnavailable)
    ensures ParsedOutput(output, SameFile) !in {Err(InspectionPathMismatch), Err(PathIdentityUnavailable)}
  {
    PathExact(values[1], path);
    hide ParsedOutput, Decode, SplitLines, Lines, ParsePath, IsAscii;
    forall identity ensures ParsedOutput(output, identity) == Decode(values, identity) {
      ParsedIsDecoded(output, values, identity);
    }
    DecodesPathFirst(values, OtherFile);
    DecodesPathFirst(values, Unreadable);
    DecodesPathFirst(values, SameFile);
  }

  lemma ReadValues(output: string, identity: Identity) returns (values: seq<string>)
    requires ParsedOutput(output, identity) != Err(InspectionProtocolInvalid)
    ensures |values| == FIELD_COUNT && IsAscii(output) && SplitLines(output) == Lines(values)
  {
    hide SplitLines, FieldValues, IsAscii, Decode, Lines;
    var lines := SplitLines(output);
    assert |lines| == FIELD_COUNT && FieldValues(lines, 0).Some?;
    FieldValuesCount(lines, 0);
    hide ParsedOutput;
    values := FieldValues(lines, 0).value;
    FieldsAreLines(lines, values);
  }

  /** Every other output is a protocol failure, whichever file was asked for. */
  lemma PathlessOutputsAreInvalid(output: string, identity: Identity) returns (values: seq<string>, path: seq<u8>)
    requires identity != SameFile && ParsedOutput(output, identity) != Err(InspectionProtocolInvalid)
    ensures IsAscii(output) && NamesPath(values, path) && SplitLines(output) == Lines(values)
  {
    hide SplitLines, ParsedOutput, ParsePath, IsAscii, Decode, Lines;
    values := ReadValues(output, identity);
    ParsedIsDecoded(output, values, identity);
    DecodesPathFirst(values, identity);
    path := ParsePath(values[1]).value;
    PathExact(values[1], path);
  }
}
