/** Which error each malformed serial line is: that of its first bad field. */
module PacketErrors {
  import opened Words
  import opened Text
  import opened Protocol

  ghost predicate IsNumeral(token: string, low: int, high: int) {
    exists v: int :: low <= v <= high && token == RenderInt(v)
  }

  /** What is wrong with the token in field `i` of twelve. */
  ghost function FieldFault(i: nat, token: string): Option<ProtocolError> {
    if i == 0 then (if token == "P3" then None else Some(WrongMarker))
    else if i in {1, 2, 5} then
      if IsNumeral(token, 0, 0xffff_ffff) then None else Some(InvalidInteger)
    else if i in {3, 4} then
      if IsNumeral(token, -0x8000_0000, 0x7fff_ffff) then None else Some(InvalidInteger)
    else if i == 6 then
      if !IsNumeral(token, -0x8000_0000, 0x7fff_ffff) then Some(InvalidInteger)
      else if token in ["-1", "0", "1"] then None
      else Some(InvalidDetent)
    else if i == 7 then
      if token in ["X", "Y", "Z", "4", "5", "N", "I"] then None else Some(InvalidAxis)
    else if i == 8 then
      if token in ["X1", "X10", "X100", "N", "I"] then None else Some(InvalidMultiplier)
    else
      if token in ["0", "1"] then None else Some(InvalidBoolean)
  }

  /** No field before field `n` is at fault. */
  ghost predicate Faultless(f: seq<string>, n: nat)
    requires n <= |f|
  {
    forall j | 0 <= j < n :: FieldFault(j, f[j]).None?
  }

  lemma UnsignedFault(token: string)
    ensures ParseU32(token) == Err(InvalidInteger) <==> !IsNumeral(token, 0, 0xffff_ffff)
    ensures ParseU32(token).Err? ==> ParseU32(token).error == InvalidInteger
  {
    forall v: u32 ensures ParseU32(token) == Ok(v) <==> token == RenderInt(v) {
      ParseU32Exact(token, v);
    }
    hide RenderInt;
    if ParseU32(token).Ok? {
      assert token == RenderInt(ParseU32(token).value);
    }
  }

  lemma SignedFault(token: string)
    ensures ParseI32(token) == Err(InvalidInteger) <==> !IsNumeral(token, -0x8000_0000, 0x7fff_ffff)
    ensures ParseI32(token).Err? ==> ParseI32(token).error == InvalidInteger
  {
    forall v: i32 ensures ParseI32(token) == Ok(v) <==> token == RenderInt(v) {
      ParseI32Exact(token, v);
    }
    hide RenderInt;
    if ParseI32(token).Ok? {
      assert token == RenderInt(ParseI32(token).value);
    }
  }

  lemma DetentFault(token: string)
    requires ParseI32(token).Ok?
    ensures -1 <= ParseI32(token).value <= 1 <==> token in ["-1", "0", "1"]
  {
    ParseI32Exact(token, -1);
    ParseI32Exact(token, 0);
    ParseI32Exact(token, 1);
    assert RenderInt(-1) == "-1" && RenderInt(0) == "0" && RenderInt(1) == "1";
    hide ParseI32, RenderInt;
  }

  lemma SelectorFaults(axis: string, multiplier: string, bit: string)
    ensures match FieldFault(7, axis) case None => ParseAxis(axis).Ok? case Some(e) => ParseAxis(axis) == Err(e)
    ensures match FieldFault(8, multiplier)
            case None => ParseMultiplier(multiplier).Ok?
            case Some(e) => ParseMultiplier(multiplier) == Err(e)
    ensures match FieldFault(9, bit) case None => ParseBool(bit).Ok? case Some(e) => ParseBool(bit) == Err(e)
  {
  }

  /** The error that the parser itself finds in field `i`. */
  function Refused(i: nat, token: string): Option<ProtocolError> {
    if i == 0 then (if token == "P3" then None else Some(WrongMarker))
    else if i in {1, 2, 5} then (match ParseU32(token) case Ok(_) => None case Err(e) => Some(e))
    else if i in {3, 4} then (match ParseI32(token) case Ok(_) => None case Err(e) => Some(e))
    else if i == 6 then
      (match ParseI32(token)
       case Ok(v) => if -1 <= v <= 1 then None else Some(InvalidDetent)
       case Err(e) => Some(e))
    else if i == 7 then (match ParseAxis(token) case Ok(_) => None case Err(e) => Some(e))
    else if i == 8 then (match ParseMultiplier(token) case Ok(_) => None case Err(e) => Some(e))
    else (match ParseBool(token) case Ok(_) => None case Err(e) => Some(e))
  }

  lemma RefusedExactly(i: nat, token: string)
    ensures Refused(i, token) == FieldFault(i, token)
  {
    UnsignedFault(token);
    SignedFault(token);
    if ParseI32(token).Ok? {
      DetentFault(token);
    }
    SelectorFaults(token, token, token);
    hide ParseU32, ParseI32, ParseAxis, ParseMultiplier, ParseBool, IsNumeral;
  }

  lemma FirstRefusal(line: string, f: seq<string>, n: nat)
    requires |line| <= 128 && IsAscii(line) && f == Split(line, ',') && |f| == 12
    requires n <= 12 && forall j | 0 <= j < n :: Refused(j, f[j]).None?
    requires n < 12 ==> Refused(n, f[n]).Some?
    ensures if n == 12 then ParsePacket(line).Ok? else ParsePacket(line) == Err(Refused(n, f[n]).value)
  {
    hide Split, ParseU32, ParseI32, ParseAxis, ParseMultiplier, ParseBool, IsAscii;
  }

  /** The error of a line is that of its length, its bytes, the count of its fields, or
      its first field at fault, in this order; a line with none of these is a packet. */
  lemma ErrorExactly(line: string) returns (n: nat)
    ensures |line| > 128 ==> ParsePacket(line) == Err(OverlongLine)
    ensures |line| <= 128 && !IsAscii(line) ==> ParsePacket(line) == Err(NonAscii)
    ensures |line| <= 128 && IsAscii(line) ==>
              var f := Split(line, ',');
              if |f| != 12 then ParsePacket(line) == Err(WrongFieldCount)
              else
                && n <= 12 && Faultless(f, n)
                && if n == 12 then ParsePacket(line).Ok?
                   else FieldFault(n, f[n]).Some? && ParsePacket(line) == Err(FieldFault(n, f[n]).value)
  {
    n := 0;
    var f := Split(line, ',');
    if |f| == 12 && |line| <= 128 && IsAscii(line) {
      while n < 12 && FieldFault(n, f[n]).None?
        invariant n <= 12 && Faultless(f, n)
      {
        n := n + 1;
      }
      forall j | 0 <= j < 12 ensures Refused(j, f[j]) == FieldFault(j, f[j]) {
        RefusedExactly(j, f[j]);
      }
      hide Refused, FieldFault, ParsePacket, IsAscii;
      FirstRefusal(line, f, n);
    }
  }
}
