/** The P3 serial packet: its parser, and its canonical rendering.

    The firmware that writes packets is not part of this model; `Render` is the
    specification of what it has to write. */
module Protocol {
  import opened Words
  import opened Text

  const BOOT_MARKER := "BOOT,P3,MYST1474-001,MONITOR_ONLY"
  const MAX_SERIAL_LINE_BYTES := 128

  // The bridge's codes and the controller's selectors share their wire codes,
  // so one type serves both sides of the HAL pins.
  datatype AxisSelector = X | Y | Z | Axis4 | Axis5 | AxisOff | AxisInvalid

  datatype MultiplierSelector = X1 | X10 | X100 | MultiplierOff | MultiplierInvalid

  datatype Packet = Packet(
    sequence: u32,
    milliseconds: u32,
    detentCount: i32,
    transitionCount: i32,
    quadratureErrors: u32,
    latestDetent: i32,
    axis: AxisSelector,
    multiplier: MultiplierSelector,
    deadmanHeld: bool,
    estopPressed: bool,
    selectorValid: bool)

  datatype ProtocolError =
    | WrongFieldCount
    | WrongMarker
    | InvalidInteger
    | InvalidDetent
    | InvalidAxis
    | InvalidMultiplier
    | InvalidBoolean
    | RepeatedOrReversedSequence
    | UnexpectedBootMarker
    | NonAscii
    | OverlongLine

  // ------------------------------------------------------------------- tokens

  function ParseBool(token: string): Result<bool, ProtocolError> {
    if token == "0" then Ok(false)
    else if token == "1" then Ok(true)
    else Err(InvalidBoolean)
  }

  function ParseAxis(token: string): Result<AxisSelector, ProtocolError> {
    if token == "X" then Ok(X)
    else if token == "Y" then Ok(Y)
    else if token == "Z" then Ok(Z)
    else if token == "4" then Ok(Axis4)
    else if token == "5" then Ok(Axis5)
    else if token == "N" then Ok(AxisOff)
    else if token == "I" then Ok(AxisInvalid)
    else Err(InvalidAxis)
  }

  function ParseMultiplier(token: string): Result<MultiplierSelector, ProtocolError> {
    if token == "X1" then Ok(X1)
    else if token == "X10" then Ok(X10)
    else if token == "X100" then Ok(X100)
    else if token == "N" then Ok(MultiplierOff)
    else if token == "I" then Ok(MultiplierInvalid)
    else Err(InvalidMultiplier)
  }

  function ParseU32(token: string): Result<u32, ProtocolError> {
    if !CanonicalUnsigned(token) then Err(InvalidInteger)
    else
      CanonicalIsDigits(token);
      var value := Value(token);
      if value > U32_MAX then Err(InvalidInteger) else Ok(value)
  }

  function ParseI32(token: string): Result<i32, ProtocolError> {
    var negative := token != "" && token[0] == '-';
    var digits := if negative then token[1..] else token;
    if !CanonicalUnsigned(digits) || (negative && digits == "0") then Err(InvalidInteger)
    else
      CanonicalIsDigits(digits);
      var value: int := if negative then 0 - Value(digits) else Value(digits);
      if value < -0x8000_0000 || value > I32_MAX then Err(InvalidInteger) else Ok(value)
  }

  // The token tests are made in the source's order, so the first bad token
  // decides which error a malformed line reports.
  function ParsePacket(line: string): Result<Packet, ProtocolError> {
    if |line| > MAX_SERIAL_LINE_BYTES then Err(OverlongLine)
    else if !IsAscii(line) then Err(NonAscii)
    else
      var f := Split(line, ',');
      if |f| != 12 then Err(WrongFieldCount)
      else if f[0] != "P3" then Err(WrongMarker)
      else
        var sequence := ParseU32(f[1]);
        if sequence.Err? then Err(sequence.error) else
        var milliseconds := ParseU32(f[2]);
        if milliseconds.Err? then Err(milliseconds.error) else
        var detentCount := ParseI32(f[3]);
        if detentCount.Err? then Err(detentCount.error) else
        var transitionCount := ParseI32(f[4]);
        if transitionCount.Err? then Err(transitionCount.error) else
        var quadratureErrors := ParseU32(f[5]);
        if quadratureErrors.Err? then Err(quadratureErrors.error) else
        var latestDetent := ParseI32(f[6]);
        if latestDetent.Err? then Err(latestDetent.error) else
        if !(-1 <= latestDetent.value <= 1) then Err(InvalidDetent) else
        var axis := ParseAxis(f[7]);
        if axis.Err? then Err(axis.error) else
        var multiplier := ParseMultiplier(f[8]);
        if multiplier.Err? then Err(multiplier.error) else
        var deadmanHeld := ParseBool(f[9]);
        if deadmanHeld.Err? then Err(deadmanHeld.error) else
        var estopPressed := ParseBool(f[10]);
        if estopPressed.Err? then Err(estopPressed.error) else
        var selectorValid := ParseBool(f[11]);
        if selectorValid.Err? then Err(selectorValid.error) else
        Ok(Packet(sequence.value, milliseconds.value, detentCount.value, transitionCount.value,
                  quadratureErrors.value, latestDetent.value, axis.value, multiplier.value,
                  deadmanHeld.value, estopPressed.value, selectorValid.value))
  }

  // ---------------------------------------------------------------- rendering

  // A field that neither splits the line nor leaves ASCII.
  predicate Plain(f: string) {
    ',' !in f && IsAscii(f)
  }

  function Magnitude(v: int): nat {
    if v < 0 then -v else v
  }

  function RenderInt(v: int): string {
    if v < 0 then "-" + Digits(Magnitude(v)) else Digits(v)
  }

  function RenderBool(b: bool): (r: string)
    ensures |r| == 1 && Plain(r)
  {
    if b then "1" else "0"
  }

  function RenderAxis(a: AxisSelector): (r: string)
    ensures |r| == 1 && Plain(r)
  {
    match a
    case X => "X"
    case Y => "Y"
    case Z => "Z"
    case Axis4 => "4"
    case Axis5 => "5"
    case AxisOff => "N"
    case AxisInvalid => "I"
  }

  function RenderMultiplier(m: MultiplierSelector): (r: string)
    ensures 1 <= |r| <= 4 && Plain(r)
  {
    match m
    case X1 => "X1"
    case X10 => "X10"
    case X100 => "X100"
    case MultiplierOff => "N"
    case MultiplierInvalid => "I"
  }

  function RenderNumbers(p: Packet): (f: seq<string>)
    ensures |f| == 6
  {
    [RenderInt(p.sequence), RenderInt(p.milliseconds), RenderInt(p.detentCount),
     RenderInt(p.transitionCount), RenderInt(p.quadratureErrors), RenderInt(p.latestDetent)]
  }

  function RenderSelectors(p: Packet): (f: seq<string>)
    ensures |f| == 5
  {
    [RenderAxis(p.axis), RenderMultiplier(p.multiplier), RenderBool(p.deadmanHeld),
     RenderBool(p.estopPressed), RenderBool(p.selectorValid)]
  }

  function RenderFields(p: Packet): seq<string> {
    ["P3"] + RenderNumbers(p) + RenderSelectors(p)
  }

  /** The one line that carries the packet `p`. */
  function Render(p: Packet): string {
    Join(RenderFields(p), ',')
  }

  // ------------------------------------------------------------------- lemmas

  lemma ParseU32Exact(token: string, v: u32)
    ensures ParseU32(token) == Ok(v) <==> token == RenderInt(v)
  {
    ValueOfDigits(v);
    if CanonicalUnsigned(token) {
      CanonicalIsDigits(token);
      DigitsOfValue(token);
    }
  }

  lemma ParseI32Exact(token: string, v: i32)
    ensures ParseI32(token) == Ok(v) <==> token == RenderInt(v)
  {
    ValueOfDigits(Magnitude(v));
    if v < 0 {
      assert RenderInt(v)[1..] == Digits(Magnitude(v));
      assert Digits(Magnitude(v)) != "0";
    } else {
      assert Digits(v)[0] != '-';
    }
    var negative := token != "" && token[0] == '-';
    var digits := if negative then token[1..] else token;
    if negative { assert token == "-" + digits; }
    if CanonicalUnsigned(digits) {
      CanonicalIsDigits(digits);
      DigitsOfValue(digits);
    }
  }

  lemma AxisExact(token: string, a: AxisSelector)
    ensures ParseAxis(token) == Ok(a) <==> token == RenderAxis(a)
  {
  }

  lemma MultiplierExact(token: string, m: MultiplierSelector)
    ensures ParseMultiplier(token) == Ok(m) <==> token == RenderMultiplier(m)
  {
  }

  lemma BoolExact(token: string, b: bool)
    ensures ParseBool(token) == Ok(b) <==> token == RenderBool(b)
  {
  }

  lemma NumeralIsPlain(v: int, k: nat)
    requires 1 <= k && Magnitude(v) < Pow10(k)
    ensures Plain(RenderInt(v))
    ensures |RenderInt(v)| <= if v < 0 then k + 1 else k
  {
    DigitsLength(Magnitude(v), k);
  }

  lemma Powers()
    ensures Pow10(1) == 10 && Pow10(10) == 10_000_000_000
  {
    assert Pow10(5) == 100_000 by { assert Pow10(3) == 1000; }
    assert Pow10(8) == 100_000_000 by { assert Pow10(6) == 1_000_000; }
  }

  lemma FieldsArePlain(p: Packet)
    requires -1 <= p.latestDetent <= 1
    ensures forall f | f in RenderFields(p) :: Plain(f)
    ensures TotalLength(RenderNumbers(p)) <= 54
    ensures TotalLength(RenderSelectors(p)) <= 8
  {
    NumbersArePlain(p);
    SelectorsArePlain(p);
  }

  lemma NumbersArePlain(p: Packet)
    requires -1 <= p.latestDetent <= 1
    ensures forall f | f in RenderNumbers(p) :: Plain(f)
    ensures TotalLength(RenderNumbers(p)) <= 54
  {
    Powers();
    NumeralIsPlain(p.sequence, 10);
    NumeralIsPlain(p.milliseconds, 10);
    NumeralIsPlain(p.detentCount, 10);
    NumeralIsPlain(p.transitionCount, 10);
    NumeralIsPlain(p.quadratureErrors, 10);
    NumeralIsPlain(p.latestDetent, 1);
    var n := RenderNumbers(p);
    SumOfSix(n);
  }

  lemma SelectorsArePlain(p: Packet)
    ensures forall f | f in RenderSelectors(p) :: Plain(f)
    ensures TotalLength(RenderSelectors(p)) <= 8
  {
    SumOfFive(RenderSelectors(p));
  }

  lemma SumOfFive(n: seq<string>)
    requires |n| == 5
    ensures TotalLength(n) == |n[0]| + |n[1]| + |n[2]| + |n[3]| + |n[4]|
  {
    assert n[1..][1..] == n[2..] && n[2..][1..] == n[3..] && n[3..][1..] == n[4..];
    assert n[4..][1..] == [];
    assert TotalLength(n[4..]) == |n[4]|;
    assert TotalLength(n[2..]) == |n[2]| + |n[3]| + |n[4]|;
  }

  lemma SumOfSix(n: seq<string>)
    requires |n| == 6
    ensures TotalLength(n) == |n[0]| + |n[1]| + |n[2]| + |n[3]| + |n[4]| + |n[5]|
  {
    SumOfFive(n[1..]);
  }

  function TotalLength(fields: seq<string>): nat {
    if fields == [] then 0 else |fields[0]| + TotalLength(fields[1..])
  }

  lemma {:induction false} JoinLength(fields: seq<string>, sep: char)
    requires fields != []
    ensures |Join(fields, sep)| == TotalLength(fields) + |fields| - 1
  {
    if |fields| > 1 { JoinLength(fields[1..], sep); }
  }

  lemma {:induction false} TotalLengthOfConcat(a: seq<string>, b: seq<string>)
    ensures TotalLength(a + b) == TotalLength(a) + TotalLength(b)
  {
    if a == [] {
      assert a + b == b;
    } else {
      assert (a + b)[1..] == a[1..] + b;
      TotalLengthOfConcat(a[1..], b);
    }
  }

  /** Every rendering fits 75 bytes, so the 128-byte limit never rejects one. */
  lemma RenderingIsShort(p: Packet)
    requires -1 <= p.latestDetent <= 1
    ensures |Render(p)| <= 75 < MAX_SERIAL_LINE_BYTES
    ensures IsAscii(Render(p))
  {
    var f := RenderFields(p);
    FieldsArePlain(p);
    JoinLength(f, ',');
    TotalLengthOfConcat(["P3"] + RenderNumbers(p), RenderSelectors(p));
    TotalLengthOfConcat(["P3"], RenderNumbers(p));
    forall c | c in Render(p) ensures c < 128 as char {
      JoinOnlyUses(f, ',', c);
    }
  }

  /** The parser accepts exactly the canonical renderings: a line parses to `p`
      iff `p` is a packet with a detent of -1, 0 or 1 and the line is its
      rendering. */
  lemma ParserAcceptsExactlyRenderings(line: string, p: Packet)
    ensures ParsePacket(line) == Ok(p) <==> -1 <= p.latestDetent <= 1 && line == Render(p)
  {
    if -1 <= p.latestDetent <= 1 && line == Render(p) {
      RenderParses(p);
    }
    if ParsePacket(line) == Ok(p) {
      ParsedIsRendering(line, p);
    }
  }

  lemma RenderParses(p: Packet)
    requires -1 <= p.latestDetent <= 1
    ensures ParsePacket(Render(p)) == Ok(p)
  {
    var f := RenderFields(p);
    RenderingIsShort(p);
    FieldsArePlain(p);
    SplitOfJoin(f, ',');
    FieldsExact(f, p);
  }

  // Field by field, a token parses to a packet's value iff it renders it.
  predicate NumbersParse(f: seq<string>, p: Packet)
    requires |f| == 12
  {
    && ParseU32(f[1]) == Ok(p.sequence) && ParseU32(f[2]) == Ok(p.milliseconds)
    && ParseI32(f[3]) == Ok(p.detentCount) && ParseI32(f[4]) == Ok(p.transitionCount)
    && ParseU32(f[5]) == Ok(p.quadratureErrors) && ParseI32(f[6]) == Ok(p.latestDetent)
  }

  predicate SelectorsParse(f: seq<string>, p: Packet)
    requires |f| == 12
  {
    && ParseAxis(f[7]) == Ok(p.axis) && ParseMultiplier(f[8]) == Ok(p.multiplier)
    && ParseBool(f[9]) == Ok(p.deadmanHeld) && ParseBool(f[10]) == Ok(p.estopPressed)
    && ParseBool(f[11]) == Ok(p.selectorValid)
  }

  lemma NumbersExact(f: seq<string>, p: Packet)
    requires |f| == 12
    ensures NumbersParse(f, p) <==> f[1..7] == RenderNumbers(p)
  {
    ParseU32Exact(f[1], p.sequence);
    ParseU32Exact(f[2], p.milliseconds);
    ParseI32Exact(f[3], p.detentCount);
    ParseI32Exact(f[4], p.transitionCount);
    ParseU32Exact(f[5], p.quadratureErrors);
    ParseI32Exact(f[6], p.latestDetent);
    assert f[1..7] == [f[1], f[2], f[3], f[4], f[5], f[6]];
  }

  lemma SelectorsExact(f: seq<string>, p: Packet)
    requires |f| == 12
    ensures SelectorsParse(f, p) <==> f[7..] == RenderSelectors(p)
  {
    AxisExact(f[7], p.axis);
    MultiplierExact(f[8], p.multiplier);
    BoolExact(f[9], p.deadmanHeld);
    BoolExact(f[10], p.estopPressed);
    BoolExact(f[11], p.selectorValid);
    assert f[7..] == [f[7], f[8], f[9], f[10], f[11]];
  }

  lemma FieldsExact(f: seq<string>, p: Packet)
    requires |f| == 12
    ensures f[0] == "P3" && NumbersParse(f, p) && SelectorsParse(f, p) <==> f == RenderFields(p)
  {
    NumbersExact(f, p);
    SelectorsExact(f, p);
    assert f == [f[0]] + f[1..7] + f[7..];
    var g := RenderFields(p);
    assert g[0] == "P3" && g[1..7] == RenderNumbers(p) && g[7..] == RenderSelectors(p);
  }

  lemma ParsedIsRendering(line: string, p: Packet)
    requires ParsePacket(line) == Ok(p)
    ensures -1 <= p.latestDetent <= 1 && line == Render(p)
  {
    var f := Split(line, ',');
    assert f[0] == "P3" && NumbersParse(f, p) && SelectorsParse(f, p);
    FieldsExact(f, p);
    JoinOfSplit(line, ',');
  }

  /** No boot marker is a packet, and no packet line is taken for one. */
  lemma BootMarkerIsNoPacket(line: string)
    requires |line| >= 5 && line[..5] == "BOOT,"
    ensures ParsePacket(line).Err?
  {
    assert line == "BOOT" + [','] + line[5..];
    SplitOfPrefixed("BOOT", line[5..], ',');
  }
}
