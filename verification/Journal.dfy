/** The process journal: appends by several writers under one lock, any of which
    may die after an arbitrary part of its bytes reached the file. */
module Journal {
  import opened Hexadecimal
  import opened Words
  import Crc32

  const NEWLINE: u8 := 10
  // "\tcrc32="
  const CRC_TAG: seq<u8> := [9, 99, 114, 99, 51, 50, 61]

  function RecordText(payload: seq<u8>): seq<u8> {
    payload + CRC_TAG + HexCodes(Crc32.Crc(payload), 8)
  }

  /** What keeps a record from being glued to an interrupted one before it. */
  function Separator(file: seq<u8>): seq<u8> {
    if file == [] || file[|file| - 1] == NEWLINE then [] else [NEWLINE]
  }

  // One critical section: opening the journal, or appending an event. `budget` is
  // how many bytes reach the file before the writer dies, if it dies.
  datatype Section = Open(budget: nat) | Append(payload: seq<u8>, budget: nat)

  function Body(s: Section): seq<u8> {
    if s.Append? then RecordText(s.payload) + [NEWLINE] else []
  }

  function Prefix(data: seq<u8>, n: nat): seq<u8> {
    if n < |data| then data[..n] else data
  }

  predicate Completes(file: seq<u8>, s: Section) {
    s.budget >= |Separator(file)| + |Body(s)|
  }

  /** Separator first, then the record: two writes, cut off where the budget ends. */
  function Written(file: seq<u8>, s: Section): seq<u8> {
    var separator := Separator(file);
    if s.budget < |separator| then [] else separator + Prefix(Body(s), s.budget - |separator|)
  }

  class JournalFile {
    var bytes: seq<u8>

    method WriteAll(data: seq<u8>, budget: nat) returns (left: nat, done: bool)
      modifies this
      ensures done == (|data| <= budget)
      ensures bytes == old(bytes) + Prefix(data, budget)
      ensures left == if done then budget - |data| else 0
    {
      var i := 0;
      left := budget;
      while i < |data| && left > 0
        invariant i <= |data| && left == budget - i
        invariant bytes == old(bytes) + data[..i]
      {
        bytes := bytes + [data[i]];
        i, left := i + 1, left - 1;
      }
      done := i == |data|;
    }

    /** `Ok` of the source is `done`; `repaired` says a separator was needed. */
    method SeparatePartialRecord(budget: nat) returns (left: nat, done: bool, repaired: bool)
      modifies this
      ensures done == (|Separator(old(bytes))| <= budget) && repaired == (done && Separator(old(bytes)) != [])
      ensures bytes == old(bytes) + (if done then Separator(old(bytes)) else [])
      ensures left == if done then budget - |Separator(old(bytes))| else 0
    {
      if |bytes| == 0 || bytes[|bytes| - 1] == NEWLINE {
        return budget, true, false;
      }
      left, done := WriteAll([NEWLINE], budget);
      repaired := done;
    }

    method AppendEvent(payload: seq<u8>, budget: nat) returns (done: bool)
      modifies this
      ensures bytes == old(bytes) + Written(old(bytes), Append(payload, budget))
      ensures done == Completes(old(bytes), Append(payload, budget))
    {
      hide Crc32.Crc, HexCodes, Prefix;
      var crc := Crc32.Checksum(payload);
      var record := payload + CRC_TAG + HexCodes(crc, 8) + [NEWLINE];
      assert record == Body(Append(payload, budget));
      var left, ok, _ := SeparatePartialRecord(budget);
      if !ok {
        return false;
      }
      ghost var cut := bytes;
      left, done := WriteAll(record, left);
      assert bytes == cut + Prefix(record, budget - |Separator(old(bytes))|);
    }
  }

  // -------------------------------------------------------------- lines of a file

  predicate OneLine(text: seq<u8>) {
    NEWLINE !in text
  }

  /** The terminated lines, and the unterminated rest. */
  datatype Parsed = Parsed(lines: seq<seq<u8>>, tail: seq<u8>)

  function Parse(file: seq<u8>): Parsed {
    if file == [] then Parsed([], [])
    else
      var p, last := Parse(file[..|file| - 1]), file[|file| - 1];
      if last == NEWLINE then Parsed(p.lines + [p.tail], []) else Parsed(p.lines, p.tail + [last])
  }

  function Unparse(lines: seq<seq<u8>>, tail: seq<u8>): seq<u8> {
    if lines == [] then tail else lines[0] + [NEWLINE] + Unparse(lines[1..], tail)
  }

  lemma {:induction false} UnparseEnd(lines: seq<seq<u8>>, last: seq<u8>)
    ensures Unparse(lines + [last], []) == Unparse(lines, last) + [NEWLINE]
  {
    if lines == [] {
      assert lines + [last] == [last] && [last][1..] == [];
    } else {
      UnparseEnd(lines[1..], last);
      assert (lines + [last])[1..] == lines[1..] + [last];
    }
  }

  lemma {:induction false} UnparseTail(lines: seq<seq<u8>>, tail: seq<u8>, more: seq<u8>)
    ensures Unparse(lines, tail + more) == Unparse(lines, tail) + more
  {
    if lines != [] {
      UnparseTail(lines[1..], tail, more);
    }
  }

  /** Lines and tail are the file, cut at its newlines and nowhere else. */
  lemma {:induction false} ParseIsFaithful(file: seq<u8>)
    ensures Unparse(Parse(file).lines, Parse(file).tail) == file
    ensures OneLine(Parse(file).tail) && forall line <- Parse(file).lines :: OneLine(line)
    ensures Parse(file).tail == [] <==> Separator(file) == []
  {
    if file != [] {
      var front, last := file[..|file| - 1], file[|file| - 1];
      ParseIsFaithful(front);
      var p := Parse(front);
      assert file == front + [last];
      if last == NEWLINE {
        UnparseEnd(p.lines, p.tail);
      } else {
        UnparseTail(p.lines, p.tail, [last]);
      }
    }
  }

  lemma {:induction false} ParseText(file: seq<u8>, text: seq<u8>)
    requires OneLine(text)
    ensures Parse(file + text) == Parsed(Parse(file).lines, Parse(file).tail + text)
  {
    if text == [] {
      assert file + text == file;
    } else {
      var n := |text| - 1;
      ParseText(file, text[..n]);
      assert (file + text)[..|file + text| - 1] == file + text[..n];
      assert (file + text)[|file + text| - 1] == text[n] != NEWLINE;
      assert Parse(file).tail + text == (Parse(file).tail + text[..n]) + [text[n]];
    }
  }

  lemma ParseNewline(file: seq<u8>)
    ensures Parse(file + [NEWLINE]) == Parsed(Parse(file).lines + [Parse(file).tail], [])
  {
    assert (file + [NEWLINE])[..|file|] == file;
  }

  // ------------------------------------------------------ what one section does

  lemma RecordIsOneLine(payload: seq<u8>)
    requires OneLine(payload)
    ensures OneLine(RecordText(payload))
  {
  }

  function Terminated(p: Parsed): Parsed {
    if p.tail == [] then p else Parsed(p.lines + [p.tail], [])
  }

  /** A section that writes anything first terminates what an interrupted one left;
      a completed append is then a line of its own, an interrupted one leaves a
      prefix of its record as the unterminated tail. */
  lemma SectionEffect(file: seq<u8>, s: Section)
    requires s.Append? ==> OneLine(s.payload)
    ensures var p, q := Parse(file), Parse(file + Written(file, s));
            var n := s.budget - |Separator(file)|;
            if n < 0 then q == p
            else if s.Open? then q == Terminated(p)
            else if n > |RecordText(s.payload)| then
              q == Parsed(Terminated(p).lines + [RecordText(s.payload)], []) && Completes(file, s)
            else
              q == Parsed(Terminated(p).lines, RecordText(s.payload)[..n]) && !Completes(file, s)
  {
    hide RecordText, Separator, Prefix, Parse;
    var separator := Separator(file);
    var n := s.budget - |separator|;
    if n < 0 {
      assert file + [] == file;
    } else {
      var cut := file + separator;
      SeparatorTerminates(file);
      assert file + (separator + Prefix(Body(s), n)) == cut + Prefix(Body(s), n);
      if s.Open? {
        assert Prefix([], n) == [] by { NoPrefix(n); }
        assert cut + [] == cut;
      } else {
        RecordIsOneLine(s.payload);
        RecordEffect(cut, RecordText(s.payload), n);
      }
    }
  }

  lemma NoPrefix(n: nat)
    ensures Prefix([], n) == []
  {
  }

  lemma RecordEffect(file: seq<u8>, record: seq<u8>, n: nat)
    requires OneLine(record) && Parse(file).tail == []
    ensures var q := Parse(file + Prefix(record + [NEWLINE], n));
            if n > |record| then q == Parsed(Parse(file).lines + [record], [])
            else q == Parsed(Parse(file).lines, record[..n])
  {
    if n > |record| {
      assert file + (record + [NEWLINE]) == file + record + [NEWLINE];
      ParseText(file, record);
      ParseNewline(file + record);
      assert [] + record == record;
    } else {
      assert Prefix(record + [NEWLINE], n) == record[..n];
      ParseText(file, record[..n]);
      assert [] + record[..n] == record[..n];
    }
  }

  lemma SeparatorTerminates(file: seq<u8>)
    ensures Parse(file + Separator(file)) == Terminated(Parse(file))
  {
    ParseIsFaithful(file);
    if Separator(file) == [] {
      assert file + [] == file;
    } else {
      ParseNewline(file);
    }
  }

  // -------------------------------------------------------------- whole histories

  /** The file before section `k`. Sections follow each other in lock order. */
  function FileAt(file: seq<u8>, run: seq<Section>, k: nat): seq<u8>
    requires k <= |run|
  {
    if k == 0 then file
    else
      var before := FileAt(file, run, k - 1);
      before + Written(before, run[k - 1])
  }

  predicate SingleLined(run: seq<Section>) {
    forall k | 0 <= k < |run| :: run[k].Append? ==> OneLine(run[k].payload)
  }

  const FOUND := -1

  /** Line `i` was found in the initial file, or is the whole or a prefix of the
      record of the one section that owns it. */
  predicate Owned(run: seq<Section>, found: Parsed, i: nat, line: seq<u8>, owner: int) {
    if owner == FOUND then
      if i < |found.lines| then line == found.lines[i] else i == |found.lines| && line == found.tail
    else
      0 <= owner < |run| && run[owner].Append? && line <= RecordText(run[owner].payload)
  }

  /** Section `k` is an append that was completed. */
  predicate Done(file: seq<u8>, run: seq<Section>, k: nat)
    requires k < |run|
  {
    run[k].Append? && Completes(FileAt(file, run, k), run[k])
  }

  predicate Before(owner: int, next: int) {
    owner < next || owner == next == FOUND
  }

  /** Line `i` belongs to `owner`, wholly if that append was completed. */
  predicate Entry(file: seq<u8>, run: seq<Section>, i: nat, line: seq<u8>, owner: int) {
    && Owned(run, Parse(file), i, line, owner)
    && (0 <= owner < |run| && Done(file, run, owner) ==> line == RecordText(run[owner].payload))
  }

  predicate Ledger(file: seq<u8>, run: seq<Section>, lines: seq<seq<u8>>, owners: seq<int>) {
    && |owners| == |lines|
    && (forall i | 0 <= i < |owners| :: Entry(file, run, i, lines[i], owners[i]))
    && (forall i, j | 0 <= i < j < |owners| :: Before(owners[i], owners[j]))
  }

  lemma LedgerGrows(file: seq<u8>, run: seq<Section>, lines: seq<seq<u8>>, owners: seq<int>,
                    line: seq<u8>, owner: int)
    requires Ledger(file, run, lines, owners) && Entry(file, run, |lines|, line, owner)
    requires forall i | 0 <= i < |owners| :: Before(owners[i], owner)
    ensures Ledger(file, run, lines + [line], owners + [owner])
  {
    hide Entry;
  }

  /** Whatever the interleaving and the crashes: every line of the journal was there
      before, or belongs to exactly one append, in lock order; a completed append has
      its one whole line; every other line is a prefix of one interrupted record. */
  lemma {:induction false} EveryLineHasOneOwner(file: seq<u8>, run: seq<Section>, n: nat)
    returns (owners: seq<int>, last: int)
    requires SingleLined(run) && n <= |run|
    ensures var now := Parse(FileAt(file, run, n));
            && Ledger(file, run, now.lines, owners)
            && (forall i | 0 <= i < |owners| :: owners[i] < n)
            && (forall k | 0 <= k < n && Done(file, run, k) :: k in owners)
            && (now.tail != [] ==>
                  && last < n && Entry(file, run, |owners|, now.tail, last)
                  && (last >= 0 ==> !Done(file, run, last))
                  && forall i | 0 <= i < |owners| :: Before(owners[i], last))
  {
    hide Parse, Written, Completes, RecordText, Separator, OneLine;
    if n == 0 {
      var now := Parse(file);
      owners, last := seq(|now.lines|, i => FOUND), FOUND;
    } else {
      var before, s := FileAt(file, run, n - 1), run[n - 1];
      owners, last := EveryLineHasOneOwner(file, run, n - 1);
      SectionEffect(before, s);
      var p := Parse(before);
      var budget := s.budget - |Separator(before)|;
      if budget >= 0 {
        if p.tail != [] {
          LedgerGrows(file, run, p.lines, owners, p.tail, last);
          owners := owners + [last];
        }
        var lines := Terminated(p).lines;
        assert Ledger(file, run, lines, owners);
        if s.Append? && budget > |RecordText(s.payload)| {
          LedgerGrows(file, run, lines, owners, RecordText(s.payload), n - 1);
          owners := owners + [n - 1];
        } else {
          last := n - 1;
        }
      } else {
        NotDone(before, s);
      }
    }
  }

  lemma NotDone(file: seq<u8>, s: Section)
    requires s.budget < |Separator(file)|
    ensures !Completes(file, s)
  {
  }

  /** A completed append is one whole line exactly when its event has no newline of
      its own: the renderer escapes nothing. */
  lemma OneLineExactlyWithoutNewlines(file: seq<u8>, s: Section)
    requires s.Append? && Completes(file, s)
    ensures Parse(file + Written(file, s)).lines == Terminated(Parse(file)).lines + [RecordText(s.payload)]
            <==> OneLine(s.payload)
  {
    hide Written, Parse, RecordText;
    if OneLine(s.payload) {
      SectionEffect(file, s);
    } else {
      ParseIsFaithful(file + Written(file, s));
      var lines := Terminated(Parse(file)).lines + [RecordText(s.payload)];
      assert lines[|lines| - 1] == RecordText(s.payload);
      NewlineStays(s.payload);
    }
  }

  lemma NewlineStays(payload: seq<u8>)
    requires !OneLine(payload)
    ensures !OneLine(RecordText(payload))
  {
    assert payload <= RecordText(payload);
    var i :| 0 <= i < |payload| && payload[i] == NEWLINE;
    assert RecordText(payload)[i] == NEWLINE;
  }

  // ------------------------------------------------------------------ integrity

  /** A stored record whose payload was altered within four consecutive bytes no
      longer carries the checksum of what it says. */
  lemma CorruptionIsNoticed(payload: seq<u8>, stored: seq<u8>, i: nat)
    requires |payload| == |stored| && payload != stored
    requires forall k | 0 <= k < |payload| && !(i <= k < i + 4) :: payload[k] == stored[k]
    ensures stored + CRC_TAG + HexCodes(Crc32.Crc(payload), 8) != RecordText(stored)
  {
    hide Crc32.Crc, HexCodes;
    Crc32.CrcDetectsShortBursts(payload, stored, i);
    Crc32.CrcIsAWord(payload);
    Crc32.CrcIsAWord(stored);
    EightDigits();
    var a, b := HexCodes(Crc32.Crc(payload), 8), HexCodes(Crc32.Crc(stored), 8);
    if stored + CRC_TAG + a == stored + CRC_TAG + b {
      var n := |stored + CRC_TAG|;
      assert a == (stored + CRC_TAG + a)[n..] && b == (stored + CRC_TAG + b)[n..];
      HexCodesAreInjective(Crc32.Crc(payload), Crc32.Crc(stored), 8);
    }
  }

  /** A record is its payload, a tab, "crc32=" and the checksum in eight digits of base
      sixteen. */
  lemma RecordLayout(payload: seq<u8>) returns (digits: string)
    ensures |digits| == 8 && HexValue(digits) == Some(Crc32.Crc(payload))
    ensures var n, record := |payload|, RecordText(payload);
            && |record| == n + 15 && record[..n] == payload && record[n..n + 7] == [9, 99, 114, 99, 51, 50, 61]
            && forall i | 0 <= i < 8 :: record[n + 7 + i] == digits[i] as int
  {
    digits := HexDigits(Crc32.Crc(payload), 8);
    Crc32.CrcIsAWord(payload);
    EightDigits();
    HexValueOfDigits(Crc32.Crc(payload), 8);
    hide Crc32.Crc, HexDigits, HexValue;
    var record, codes := RecordText(payload), HexCodes(Crc32.Crc(payload), 8);
    assert record == payload + CRC_TAG + codes;
    assert forall i | 0 <= i < 8 :: record[|payload| + 7 + i] == codes[i];
  }
}
