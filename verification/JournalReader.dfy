/** The two AXIS journal readers, which poll a growing file line by line.

    Both share one shape: a buffer for the unfinished line, a queue of events, and
    a per-line step that advances the reader or raises. `LineReader` is that shape;
    the diagnostic and the error reader are its two steps. The parsers of single
    lines stay abstract. */
module JournalReader {
  import opened Hexadecimal
  import opened Words
  import Fnv
  import Journal

  type Line = seq<u8>

  /** A line is taken, perhaps yielding an event, or an exception is raised. */
  datatype Outcome<C, E> = Take(core: C, event: Option<E>) | Raise(core: C)

  datatype Batched<C, E> = Batched(core: C, events: seq<E>, failed: bool)

  function Queue<E>(event: Option<E>): seq<E> {
    if event.Some? then [event.value] else []
  }

  /** Reading all lines at once, up to the first that raises. */
  function Batch<C, E>(step: (C, Line) -> Outcome<C, E>, start: C, lines: seq<Line>): Batched<C, E> {
    if lines == [] then Batched(start, [], false)
    else
      var before := Batch(step, start, lines[..|lines| - 1]);
      if before.failed then before
      else
        match step(before.core, lines[|lines| - 1])
        case Take(core, event) => Batched(core, before.events + Queue(event), false)
        case Raise(core) => Batched(core, before.events, true)
  }

  lemma BatchSnoc<C, E>(step: (C, Line) -> Outcome<C, E>, start: C, lines: seq<Line>, line: Line)
    ensures var before := Batch(step, start, lines);
            Batch(step, start, lines + [line]) ==
            if before.failed then before
            else
              match step(before.core, line)
              case Take(core, event) => Batched(core, before.events + Queue(event), false)
              case Raise(core) => Batched(core, before.events, true)
  {
    assert (lines + [line])[..|lines|] == lines;
  }

  lemma {:induction false} BatchStops<C, E>(step: (C, Line) -> Outcome<C, E>, start: C, lines: seq<Line>,
                                            more: seq<Line>)
    ensures var before := Batch(step, start, lines);
            var after := Batch(step, start, lines + more);
            (before.failed ==> after == before) && before.events <= after.events
  {
    if more == [] {
      assert lines + more == lines;
    } else {
      var n := |more| - 1;
      BatchStops(step, start, lines, more[..n]);
      assert lines + more == (lines + more[..n]) + [more[n]];
      BatchSnoc(step, start, lines + more[..n], more[n]);
    }
  }

  /** What a batch accepts is its longest valid prefix. */
  lemma {:induction false} BatchIsLongestValidPrefix<C, E>(step: (C, Line) -> Outcome<C, E>, start: C,
                                                           lines: seq<Line>)
    returns (n: nat)
    ensures n <= |lines| && !Batch(step, start, lines[..n]).failed
    ensures Batch(step, start, lines[..n]).events == Batch(step, start, lines).events
    ensures if Batch(step, start, lines).failed
            then n < |lines| && step(Batch(step, start, lines[..n]).core, lines[n]).Raise?
            else n == |lines|
  {
    if lines == [] {
      n := 0;
    } else {
      var k := |lines| - 1;
      n := BatchIsLongestValidPrefix(step, start, lines[..k]);
      assert lines[..k] + [lines[k]] == lines && lines[..k][..n] == lines[..n] && lines[..|lines|] == lines;
      if !Batch(step, start, lines[..k]).failed && !Batch(step, start, lines).failed {
        n := |lines|;
      }
    }
  }

  // ----------------------------------------------------------- cutting into lines

  lemma {:induction false} ParseConcat(a: seq<u8>, b: seq<u8>)
    ensures var p, q := Journal.Parse(a), Journal.Parse(Journal.Parse(a).tail + b);
            Journal.Parse(a + b) == Journal.Parsed(p.lines + q.lines, q.tail)
  {
    var p := Journal.Parse(a);
    if b == [] {
      assert a + b == a && p.tail + b == p.tail;
      Journal.ParseIsFaithful(a);
      Journal.ParseText([], p.tail);
      assert [] + p.tail == p.tail;
    } else {
      var n := |b| - 1;
      ParseConcat(a, b[..n]);
      assert (a + b)[..|a + b| - 1] == a + b[..n];
      assert (p.tail + b)[..|p.tail + b| - 1] == p.tail + b[..n];
    }
  }

  /** One complete line in front of the rest. */
  lemma ParseFirst(line: Line, rest: seq<u8>)
    requires Journal.OneLine(line)
    ensures Journal.Parse(line + [Journal.NEWLINE] + rest) ==
            Journal.Parsed([line] + Journal.Parse(rest).lines, Journal.Parse(rest).tail)
  {
    assert Journal.Parse([]) == Journal.Parsed([], []);
    hide Journal.Parse;
    Journal.ParseText([], line);
    assert [] + line == line;
    Journal.ParseNewline(line);
    assert Journal.Parse(line + [Journal.NEWLINE]).lines == [line];
    ParseConcat(line + [Journal.NEWLINE], rest);
    assert [] + rest == rest;
  }

  lemma ParseUnfinished(buffer: seq<u8>)
    requires Journal.OneLine(buffer)
    ensures Journal.Parse(buffer) == Journal.Parsed([], buffer)
  {
    assert Journal.Parse([]) == Journal.Parsed([], []);
    hide Journal.Parse;
    Journal.ParseText([], buffer);
    assert [] + buffer == buffer;
  }

  /** After `done`, what is left of the file is in the buffer. */
  predicate Remaining(file: seq<u8>, done: seq<Line>, buffer: seq<u8>) {
    Journal.Parse(file) == Journal.Parsed(done + Journal.Parse(buffer).lines, Journal.Parse(buffer).tail)
  }

  lemma RemainingStep(file: seq<u8>, done: seq<Line>, buffer: seq<u8>, line: Line, rest: seq<u8>)
    requires Remaining(file, done, buffer)
    requires buffer == line + [Journal.NEWLINE] + rest && Journal.OneLine(line)
    ensures Remaining(file, done + [line], rest)
    ensures done + [line] <= Journal.Parse(file).lines && (done + [line])[..|done|] == done
  {
    ParseFirst(line, rest);
    assert done + ([line] + Journal.Parse(rest).lines) == (done + [line]) + Journal.Parse(rest).lines;
  }

  // ------------------------------------------------------------------- the reader

  datatype Polled<E> = Nothing | Delivered(event: E) | Raised

  class LineReader<C, E> {
    const start: C
    const step: (C, Line) -> Outcome<C, E>
    var core: C
    var buffer: seq<u8>
    var events: seq<E>
    var failed: bool
    var offset: nat
    ghost var read: seq<u8>
    ghost var delivered: seq<E>

    /** The reader is where a batch reader of the bytes read so far would be. */
    ghost predicate Valid()
      reads this
    {
      var file := Journal.Parse(read);
      && Batch(step, start, file.lines) == Batched(core, delivered + events, failed)
      && (!failed ==> buffer == file.tail)
      && offset == |read|
    }

    constructor (start: C, step: (C, Line) -> Outcome<C, E>)
      ensures Valid() && read == [] && delivered == [] && this.start == start && this.step == step
    {
      this.start := start;
      this.step := step;
      this.core := start;
      buffer := [];
      events := [];
      failed := false;
      offset := 0;
      read := [];
      delivered := [];
    }

    /** One poll of the same, grown file. */
    method Poll(file: seq<u8>) returns (r: Polled<E>)
      requires Valid() && read <= file
      modifies this
      ensures Valid()
      ensures delivered == old(delivered) + (if r.Delivered? then [r.event] else [])
      ensures if old(events) != [] || old(failed) then read == old(read) else read == file
      ensures old(events) != [] ==> r == Delivered(old(events)[0]) && events == old(events)[1..]
      ensures failed == (old(failed) || r.Raised?) && (r.Raised? ==> !old(failed))
      ensures old(events) == [] && old(failed) ==> r.Nothing?
      ensures r.Nothing? ==> events == [] && (failed || read == file)
    {
      if events != [] {
        r := Pop();
        return;
      }
      if failed {
        return Nothing;
      }
      ReadCompleteLines(file);
      if failed {
        return Raised;
      }
      if events != [] {
        r := Pop();
        return;
      }
      return Nothing;
    }

    method Pop() returns (r: Polled<E>)
      requires Valid() && events != []
      modifies this`events, this`delivered
      ensures Valid() && r == Delivered(old(events)[0])
      ensures delivered == old(delivered) + [old(events)[0]] && events == old(events)[1..]
    {
      r := Delivered(events[0]);
      delivered := delivered + [events[0]];
      events := events[1..];
      assert delivered + events == old(delivered + events);
    }

    method ReadCompleteLines(file: seq<u8>)
      requires Valid() && read <= file && !failed
      modifies this
      ensures Valid() && read == file && delivered == old(delivered)
    {
      hide Batch, Journal.Parse;
      ghost var known := Journal.Parse(read).lines;
      ParseConcat(read, file[offset..]);
      assert read + file[offset..] == file;
      buffer := buffer + file[offset..];
      offset := |file|;
      read := file;
      ghost var done := known;
      while !failed && Journal.NEWLINE in buffer
        invariant read == file && offset == |file| && delivered == old(delivered)
        invariant Batch(step, start, done) == Batched(core, delivered + events, failed)
        invariant if failed then done <= Journal.Parse(file).lines else Remaining(file, done, buffer)
        decreases !failed, |buffer|
      {
        var line, rest := SplitFirst(buffer);
        RemainingStep(file, done, buffer, line, rest);
        buffer := rest;
        done := done + [line];
        TakeLine(done, line);
      }
      if failed {
        var all := Journal.Parse(file).lines;
        assert all == done + all[|done|..];
        BatchStops(step, start, done, all[|done|..]);
      } else {
        ParseUnfinished(buffer);
        assert done + [] == done;
      }
    }

    method TakeLine(ghost done: seq<Line>, line: Line)
      requires !failed && done != [] && line == done[|done| - 1]
      requires Batch(step, start, done[..|done| - 1]) == Batched(core, delivered + events, failed)
      modifies this`core, this`events, this`failed
      ensures Batch(step, start, done) == Batched(core, delivered + events, failed)
    {
      match step(core, line) {
        case Take(next, event) =>
          assert (delivered + events) + Queue(event) == delivered + (events + Queue(event));
          core, events := next, events + Queue(event);
        case Raise(next) =>
          core, failed := next, true;
      }
    }

    method SplitFirst(data: seq<u8>) returns (line: Line, rest: seq<u8>)
      requires Journal.NEWLINE in data
      ensures data == line + [Journal.NEWLINE] + rest && Journal.OneLine(line)
    {
      var i := 0;
      while data[i] != Journal.NEWLINE
        invariant i < |data| && Journal.OneLine(data[..i])
        invariant exists k :: i <= k < |data| && data[k] == Journal.NEWLINE
        decreases |data| - i
      {
        assert data[..i + 1] == data[..i] + [data[i]];
        i := i + 1;
      }
      return data[..i], data[i + 1..];
    }

    /** What AXIS does at every display update: poll until nothing is returned or an
        exception is raised. A round that does not raise has delivered the whole
        batch; one that raises has delivered what was queued, and it raises once. */
    method Round(file: seq<u8>) returns (received: seq<E>, raised: bool)
      requires Valid() && read <= file
      modifies this
      ensures Valid() && read <= file && delivered == old(delivered) + received
      ensures var batch := Batch(step, start, Journal.Parse(file).lines);
              && (raised <==> batch.failed && !old(failed)) && failed == batch.failed
              && if raised then received == old(events) else delivered == batch.events && events == []
    {
      received, raised := [], false;
      hide Batch, Journal.Parse;
      assert delivered + [] == delivered && old(events)[0..] == old(events);
      PollsAreOneBatch(this, file);
      var polling := true;
      while polling
        invariant Valid() && read <= file && delivered == old(delivered) + received
        invariant delivered <= Batch(step, start, Journal.Parse(file).lines).events
        invariant failed == (old(failed) || raised) && (raised ==> !polling && !old(failed))
        invariant polling && |received| <= |old(events)| ==>
                    received == old(events)[..|received|] && events == old(events)[|received|..]
        invariant |received| > |old(events)| ==> read == file
        invariant raised ==> received == old(events)
        invariant !polling && !raised ==> events == [] && (failed || read == file)
        decreases |Batch(step, start, Journal.Parse(file).lines).events| - |delivered|, polling
      {
        var r := Poll(file);
        PollsAreOneBatch(this, file);
        match r {
          case Delivered(event) =>
            assert old(delivered) + received + [event] == old(delivered) + (received + [event]);
            assert |received| < |old(events)| ==>
                old(events)[..|received|] + [event] == old(events)[..|received| + 1];
            received := received + [event];
          case Raised => raised, polling := true, false;
          case Nothing => polling := false;
        }
      }
      PollsAreOneBatch(this, file);
      assert delivered + [] == delivered;
    }
  }

  /** However the growing file was split into polls: what a reader that is up to
      date, or has failed, delivered and still queues is the batch reading of the
      whole file; and what any reader delivered is the beginning of it. */
  lemma PollsAreOneBatch<C, E>(reader: LineReader<C, E>, file: seq<u8>)
    requires reader.Valid() && reader.read <= file
    ensures var batch := Batch(reader.step, reader.start, Journal.Parse(file).lines);
            && reader.delivered <= batch.events
            && (reader.failed || reader.read == file ==>
                  batch == Batched(reader.core, reader.delivered + reader.events, reader.failed))
  {
    var more := file[|reader.read|..];
    assert file == reader.read + more;
    ParseConcat(reader.read, more);
    var known := Journal.Parse(reader.read).lines;
    assert Journal.Parse(file).lines == known + Journal.Parse(file).lines[|known|..];
    BatchStops(reader.step, reader.start, known, Journal.Parse(file).lines[|known|..]);
  }

  // ------------------------------------------------------------------ sealed rows

  const TAB: u8 := 9
  const SEAL := 16

  function LastTab(line: Line): (k: int)
    ensures -1 <= k < |line|
  {
    if line == [] then -1
    else if line[|line| - 1] == TAB then |line| - 1
    else LastTab(line[..|line| - 1])
  }

  /** The last field is the hash of everything before it. */
  predicate Sealed(line: Line) {
    var k := LastTab(line);
    k >= 0 && line[k + 1..] == HexCodes(Fnv.Fnv1a(line[..k]), SEAL)
  }

  /** The prefix that the seal of a line covers, and the field that seals it. */
  predicate SealedBy(line: Line, prefix: Line, seal: Line) {
    line == prefix + [TAB] + seal && seal == HexCodes(Fnv.Fnv1a(prefix), SEAL)
  }

  lemma {:induction false} LastTabIs(prefix: Line, field: Line)
    requires TAB !in field
    ensures LastTab(prefix + [TAB] + field) == |prefix|
  {
    var line := prefix + [TAB] + field;
    if field == [] {
      assert line == prefix + [TAB];
    } else {
      var n := |field| - 1;
      assert line[..|line| - 1] == prefix + [TAB] + field[..n];
      LastTabIs(prefix, field[..n]);
    }
  }

  /** A line is sealed exactly if it is some prefix, a tab, and its sixteen digits. */
  lemma SealHolds(line: Line)
    ensures Sealed(line) <==>
            |line| > SEAL && SealedBy(line, line[..|line| - SEAL - 1], line[|line| - SEAL..])
  {
    hide Fnv.Fnv1a, HexCodes;
    if Sealed(line) {
      var k := LastTab(line);
      LastTabFinds(line);
      assert line == line[..k] + [TAB] + line[k + 1..];
    }
    if |line| > SEAL {
      var prefix, seal := line[..|line| - SEAL - 1], line[|line| - SEAL..];
      assert line[|prefix| + 1..] == seal;
      if SealedBy(line, prefix, seal) {
        LastTabIs(prefix, seal);
      }
    }
  }

  lemma {:induction false} LastTabFinds(line: Line)
    ensures LastTab(line) >= 0 ==> line[LastTab(line)] == TAB
  {
    if line != [] && line[|line| - 1] != TAB {
      LastTabFinds(line[..|line| - 1]);
    }
  }

  /** The lines differ in byte `i`, and nowhere else. */
  predicate DifferAt(a: Line, b: Line, i: nat) {
    |a| == |b| && i < |a| && a[i] != b[i] && forall k | 0 <= k < |a| && k != i :: a[k] == b[k]
  }

  /** One altered byte anywhere in a row, its seal included, breaks the seal. */
  lemma OneAlteredByteBreaksTheSeal(line: Line, altered: Line, i: nat)
    requires Sealed(line) && DifferAt(line, altered, i)
    ensures !Sealed(altered)
  {
    SealHolds(line);
    SealHolds(altered);
    var n := |line| - SEAL - 1;
    hide Sealed;
    if i < n {
      AlteredPrefix(line[..n], altered[..n], line[n + 1..], i);
      assert altered[n + 1..] == line[n + 1..];
    } else if i == n {
      NoTab(altered, altered[..n], altered[n + 1..]);
    } else {
      hide Fnv.Fnv1a, HexCodes;
      assert altered[..n] == line[..n];
      assert altered[n + 1..][i - n - 1] != line[n + 1..][i - n - 1];
    }
  }

  lemma AlteredPrefix(prefix: Line, altered: Line, seal: Line, i: nat)
    requires DifferAt(prefix, altered, i) && seal == HexCodes(Fnv.Fnv1a(prefix), SEAL)
    ensures seal != HexCodes(Fnv.Fnv1a(altered), SEAL)
  {
    Fnv.OneByteChangesTheHash(prefix, altered, i);
    hide Fnv.Fnv1a, HexCodes;
    SixteenDigits();
    if seal == HexCodes(Fnv.Fnv1a(altered), SEAL) {
      HexCodesAreInjective(Fnv.Fnv1a(prefix), Fnv.Fnv1a(altered), SEAL);
    }
  }

  lemma NoTab(line: Line, prefix: Line, seal: Line)
    requires |prefix| < |line| && line[|prefix|] != TAB
    ensures !SealedBy(line, prefix, seal)
  {
    hide Fnv.Fnv1a, HexCodes;
    assert (prefix + [TAB] + seal)[|prefix|] == TAB;
  }

  /** A row that the step refuses ends the batch: it delivers what the rows before
      delivered, and nothing that follows is looked at. */
  lemma RefusedRowEndsTheBatch<C, E>(step: (C, Line) -> Outcome<C, E>, start: C, before: seq<u8>, row: Line,
                                     rest: seq<u8>)
    requires Journal.Parse(before).tail == [] && Journal.OneLine(row)
    requires var b := Batch(step, start, Journal.Parse(before).lines); !b.failed && step(b.core, row) == Raise(b.core)
    ensures var b := Batch(step, start, Journal.Parse(before).lines);
            Batch(step, start, Journal.Parse(before + (row + [Journal.NEWLINE] + rest)).lines) ==
            Batched(b.core, b.events, true)
  {
    hide Journal.Parse, Batch;
    var lines := Journal.Parse(before).lines;
    var more := row + [Journal.NEWLINE] + rest;
    ParseConcat(before, more);
    assert [] + more == more;
    ParseFirst(row, rest);
    var after := Journal.Parse(rest).lines;
    assert lines + ([row] + after) == (lines + [row]) + after;
    BatchSnoc(step, start, lines, row);
    BatchStops(step, start, lines + [row], after);
  }

  // ---------------------------------------------------------- the diagnostic reader

  datatype Route = Route(code: nat, identity: string)

  datatype DiagnosticEvent<K> = DiagnosticEvent(sequence: nat, asserts: bool, key: K)

  /** The line parsers: a header is valid or not; what a sealed row or event says
      parses or not. A parsed recovery row carries a code of the closed enumeration. */
  datatype Parsers<!K> = Parsers(
    header: Line -> bool,
    recovery: Line -> Option<Route>,
    event: (Line, map<nat, Route>) -> Option<DiagnosticEvent<K>>)

  const RECOVERY_CODES: set<nat> := {1, 2, 3, 4, 5, 6, 7, 8, 9}
  const RECOVERY_COUNT := 9

  datatype Diagnostics<K> = Diagnostics(
    headerSeen: bool,
    routes: map<nat, Route>,
    nextSequence: nat,
    active: map<K, DiagnosticEvent<K>>)

  function NewDiagnostics<K>(): Diagnostics<K> {
    Diagnostics(false, map[], 1, map[])
  }

  predicate IsAsciiLine(line: Line) {
    forall b <- line :: b < 128
  }

  function RouteStep<K>(p: Parsers<K>, c: Diagnostics<K>, line: Line): Outcome<Diagnostics<K>, DiagnosticEvent<K>> {
    match if Sealed(line) then p.recovery(line) else None
    case None => Raise(c)
    case Some(route) =>
      if route.code in c.routes then Raise(c)
      else if exists code <- c.routes :: c.routes[code].identity == route.identity then Raise(c)
      else
        var d := c.(routes := c.routes[route.code := route]);
        if |d.routes| == RECOVERY_COUNT && d.routes.Keys != RECOVERY_CODES then Raise(d) else Take(d, None)
  }

  function EventStep<K(==)>(p: Parsers<K>, c: Diagnostics<K>, line: Line)
    : Outcome<Diagnostics<K>, DiagnosticEvent<K>>
  {
    match if Sealed(line) then p.event(line, c.routes) else None
    case None => Raise(c)
    case Some(event) =>
      if event.sequence != c.nextSequence then Raise(c)
      else
        var d := c.(nextSequence := c.nextSequence + 1);
        if event.asserts == (event.key in c.active) then Raise(d)
        else if event.asserts then Take(d.(active := d.active[event.key := event]), Some(event))
        else Take(d.(active := d.active - {event.key}), Some(event))
  }

  function DiagnosticStep<K(==)>(p: Parsers<K>, c: Diagnostics<K>, line: Line)
    : Outcome<Diagnostics<K>, DiagnosticEvent<K>>
  {
    if !IsAsciiLine(line) then Raise(c)
    else if !c.headerSeen then (if p.header(line) then Take(c.(headerSeen := true), None) else Raise(c))
    else if |c.routes| < RECOVERY_COUNT then RouteStep(p, c, line)
    else EventStep(p, c, line)
  }

  function Diagnose<K(==)>(p: Parsers<K>, lines: seq<Line>): Batched<Diagnostics<K>, DiagnosticEvent<K>> {
    Batch(Stepper(p), NewDiagnostics(), lines)
  }

  function Stepper<K(==)>(p: Parsers<K>): (Diagnostics<K>, Line) -> Outcome<Diagnostics<K>, DiagnosticEvent<K>> {
    (c, line) => DiagnosticStep(p, c, line)
  }

  /** The last event with this key. */
  function Latest<K(==)>(events: seq<DiagnosticEvent<K>>, key: K): Option<DiagnosticEvent<K>> {
    if events == [] then None
    else if events[|events| - 1].key == key then Some(events[|events| - 1])
    else Latest(events[..|events| - 1], key)
  }

  predicate Asserted<K(==)>(events: seq<DiagnosticEvent<K>>, key: K) {
    Latest(events, key).Some? && Latest(events, key).value.asserts
  }

  /** Events number 1, 2, 3 and so on, and for each key assertion and clearing
      alternate, an assertion first. */
  predicate WellFormed<K(==)>(events: seq<DiagnosticEvent<K>>) {
    forall i | 0 <= i < |events| ::
      && events[i].sequence == i + 1
      && events[i].asserts == !Asserted(events[..i], events[i].key)
  }

  ghost predicate IsFold<K(!new)>(c: Diagnostics<K>, events: seq<DiagnosticEvent<K>>) {
    && c.nextSequence == |events| + 1
    && (forall key :: key in c.active <==> Asserted(events, key))
    && (forall key <- c.active :: Latest(events, key) == Some(c.active[key]))
  }

  lemma TakenEvent<K(!new)>(events: seq<DiagnosticEvent<K>>, c: Diagnostics<K>, event: DiagnosticEvent<K>,
                            d: Diagnostics<K>)
    requires WellFormed(events) && IsFold(c, events)
    requires event.sequence == c.nextSequence == d.nextSequence - 1 && event.asserts == (event.key !in c.active)
    requires d.active == if event.asserts then c.active[event.key := event] else c.active - {event.key}
    ensures WellFormed(events + [event]) && IsFold(d, events + [event])
  {
    var after := events + [event];
    assert after[..|events|] == events;
    forall i | 0 <= i < |after|
      ensures after[i].sequence == i + 1 && after[i].asserts == !Asserted(after[..i], after[i].key)
    {
      if i < |events| {
        assert after[..i] == events[..i];
      }
    }
    forall key
      ensures Latest(after, key) == if key == event.key then Some(event) else Latest(events, key)
    {
    }
  }

  lemma StepKeepsFold<K(!new)>(p: Parsers<K>, events: seq<DiagnosticEvent<K>>, c: Diagnostics<K>, line: Line)
    requires WellFormed(events) && IsFold(c, events)
    ensures match DiagnosticStep(p, c, line)
            case Take(d, event) => WellFormed(events + Queue(event)) && IsFold(d, events + Queue(event))
            case Raise(_) => true
  {
    hide WellFormed;
    var taken := DiagnosticStep(p, c, line);
    if taken.Take? {
      if taken.event.Some? {
        TakenEvent(events, c, taken.event.value, taken.core);
      } else {
        assert events + [] == events;
      }
    }
  }

  /** At every point of every batch, the events are well formed and the active set
      is their fold: a key is active exactly when its last event asserted it. */
  lemma {:induction false} ActiveSetIsTheFold<K(!new)>(p: Parsers<K>, lines: seq<Line>)
    ensures var batch := Diagnose(p, lines);
            && WellFormed(batch.events)
            && (!batch.failed ==> IsFold(batch.core, batch.events))
  {
    if lines == [] {
      assert Diagnose(p, lines) == Batched(NewDiagnostics(), [], false);
    } else {
      hide WellFormed, IsFold, DiagnosticStep;
      var n := |lines| - 1;
      ActiveSetIsTheFold(p, lines[..n]);
      var before := Diagnose(p, lines[..n]);
      if !before.failed {
        StepKeepsFold(p, before.events, before.core, lines[n]);
      }
    }
  }

  /** Which line yields what: one header, nine recovery rows, then one event each. */
  predicate Placed<K(==)>(p: Parsers<K>, lines: seq<Line>, c: Diagnostics<K>, events: seq<DiagnosticEvent<K>>) {
    && c.headerSeen == (|lines| > 0)
    && |c.routes| == (if |lines| == 0 then 0 else if |lines| <= 10 then |lines| - 1 else RECOVERY_COUNT)
    && (|c.routes| == RECOVERY_COUNT ==> c.routes.Keys == RECOVERY_CODES)
    && |events| == (if |lines| <= 10 then 0 else |lines| - 10)
    && (|lines| > 0 ==> p.header(lines[0]))
    && (forall i | 1 <= i < |lines| :: Sealed(lines[i]))
    && (forall i | 1 <= i < |lines| && i < 10 :: p.recovery(lines[i]).Some?)
    && (forall i | 0 <= i < |events| :: p.event(lines[10 + i], c.routes) == Some(events[i]))
  }

  lemma RouteKeepsPlaces<K>(p: Parsers<K>, lines: seq<Line>, c: Diagnostics<K>, events: seq<DiagnosticEvent<K>>,
                            line: Line)
    requires Placed(p, lines, c, events) && c.headerSeen && |c.routes| < RECOVERY_COUNT
    ensures match RouteStep(p, c, line)
            case Take(d, event) => Placed(p, lines + [line], d, events + Queue(event))
            case Raise(_) => true
  {
    hide Sealed;
    var after := lines + [line];
    assert after[..|lines|] == lines && after[|lines|] == line && events == [];
  }

  lemma EventKeepsPlaces<K>(p: Parsers<K>, lines: seq<Line>, c: Diagnostics<K>, events: seq<DiagnosticEvent<K>>,
                            line: Line)
    requires Placed(p, lines, c, events) && c.headerSeen && |c.routes| == RECOVERY_COUNT
    ensures match EventStep(p, c, line)
            case Take(d, event) => Placed(p, lines + [line], d, events + Queue(event))
            case Raise(_) => true
  {
    hide Sealed;
    var after, n := lines + [line], |lines|;
    assert after[..n] == lines && after[n] == line && n == |events| + 10;
    forall i | 0 <= i < |events| ensures p.event(after[10 + i], c.routes) == Some(events[i]) {
      assert after[10 + i] == lines[10 + i];
    }
  }

  lemma StepKeepsPlaces<K>(p: Parsers<K>, lines: seq<Line>, c: Diagnostics<K>, events: seq<DiagnosticEvent<K>>,
                           line: Line)
    requires Placed(p, lines, c, events)
    ensures match DiagnosticStep(p, c, line)
            case Take(d, event) => Placed(p, lines + [line], d, events + Queue(event))
            case Raise(_) => true
  {
    if !c.headerSeen {
      assert lines + [line] == [line] && events == [];
    } else {
      hide Placed, RouteStep, EventStep;
      assert |c.routes| <= RECOVERY_COUNT by { assert Placed(p, lines, c, events); }
      if |c.routes| < RECOVERY_COUNT {
        RouteKeepsPlaces(p, lines, c, events, line);
      } else {
        EventKeepsPlaces(p, lines, c, events, line);
      }
    }
  }

  /** A batch that did not fail took every line for what its place says. */
  lemma {:induction false} EveryLineHasItsPlace<K>(p: Parsers<K>, lines: seq<Line>)
    ensures var batch := Diagnose(p, lines);
            !batch.failed ==> Placed(p, lines, batch.core, batch.events)
  {
    if lines == [] {
      assert Diagnose(p, lines) == Batched(NewDiagnostics(), [], false);
    } else {
      hide Placed, DiagnosticStep;
      var n := |lines| - 1;
      EveryLineHasItsPlace(p, lines[..n]);
      assert lines == lines[..n] + [lines[n]];
      var before := Diagnose(p, lines[..n]);
      if !before.failed {
        StepKeepsPlaces(p, lines[..n], before.core, before.events, lines[n]);
      }
    }
  }

  lemma UnsealedRowIsRefused<K>(p: Parsers<K>, c: Diagnostics<K>, row: Line)
    requires c.headerSeen
    ensures !Sealed(row) ==> DiagnosticStep(p, c, row) == Raise(c)
    ensures DiagnosticStep(p, c, row).Take? ==> Sealed(row)
  {
  }

  /** A recovery row or event that was accepted, altered in one byte: the reader
      fails there, with the state and the events of the rows before. */
  lemma AlteredRowStopsTheReader<K>(p: Parsers<K>, before: seq<u8>, row: Line, altered: Line, i: nat, rest: seq<u8>)
    requires Journal.Parse(before).lines != [] && Journal.Parse(before).tail == []
    requires Journal.OneLine(row) && Journal.OneLine(altered) && DifferAt(row, altered, i)
    requires !Diagnose(p, Journal.Parse(before + (row + [Journal.NEWLINE])).lines).failed
    ensures var b := Diagnose(p, Journal.Parse(before).lines);
            && !b.failed
            && Diagnose(p, Journal.Parse(before + (altered + [Journal.NEWLINE] + rest)).lines) ==
               Batched(b.core, b.events, true)
  {
    var lines := Journal.Parse(before).lines;
    var b := Diagnose(p, lines);
    hide Journal.Parse, DiagnosticStep, Sealed;
    CompleteRow(before, row);
    EveryLineHasItsPlace(p, lines);
    BatchSnoc(Stepper(p), NewDiagnostics(), lines, row);
    UnsealedRowIsRefused(p, b.core, row);
    OneAlteredByteBreaksTheSeal(row, altered, i);
    UnsealedRowIsRefused(p, b.core, altered);
    RefusedRowEndsTheBatch(Stepper(p), NewDiagnostics(), before, altered, rest);
  }

  lemma CompleteRow(before: seq<u8>, row: Line)
    requires Journal.Parse(before).tail == [] && Journal.OneLine(row)
    ensures Journal.Parse(before + (row + [Journal.NEWLINE])).lines == Journal.Parse(before).lines + [row]
  {
    hide Journal.Parse;
    assert before + (row + [Journal.NEWLINE]) == before + row + [Journal.NEWLINE];
    Journal.ParseText(before, row);
    Journal.ParseNewline(before + row);
    assert [] + row == row;
  }

  // --------------------------------------------------------------- the error reader

  datatype ErrorEvent<D> = ErrorEvent(sequence: nat, content: D)

  /** The header yields the transport's success codes, which every event must show. */
  datatype ErrorParsers<!D> = ErrorParsers(
    header: Line -> Option<(i32, i32)>,
    event: (Line, (i32, i32)) -> Option<ErrorEvent<D>>)

  datatype Errors = Errors(transport: Option<(i32, i32)>, nextSequence: nat)

  function ErrorStep<D>(p: ErrorParsers<D>, c: Errors, line: Line): Outcome<Errors, ErrorEvent<D>> {
    if !IsAsciiLine(line) then Raise(c)
    else if c.transport.None? then
      match if Sealed(line) then p.header(line) else None
      case None => Raise(c)
      case Some(codes) => Take(c.(transport := Some(codes)), None)
    else
      match if Sealed(line) then p.event(line, c.transport.value) else None
      case None => Raise(c)
      case Some(event) =>
        if event.sequence != c.nextSequence then Raise(c)
        else Take(c.(nextSequence := c.nextSequence + 1), Some(event))
  }

  function ErrorBatch<D>(p: ErrorParsers<D>, lines: seq<Line>): Batched<Errors, ErrorEvent<D>> {
    Batch(ErrorStepper(p), Errors(None, 1), lines)
  }

  function ErrorStepper<D>(p: ErrorParsers<D>): (Errors, Line) -> Outcome<Errors, ErrorEvent<D>> {
    (c, line) => ErrorStep(p, c, line)
  }

  /** Event `i` is what the sealed line after `i` others says, and is numbered so. */
  predicate ErrorPlaced<D(==)>(p: ErrorParsers<D>, lines: seq<Line>, events: seq<ErrorEvent<D>>, i: nat) {
    && i < |events| && i + 1 < |lines|
    && events[i].sequence == i + 1
    && Sealed(lines[0]) && p.header(lines[0]).Some?
    && Sealed(lines[i + 1]) && p.event(lines[i + 1], p.header(lines[0]).value) == Some(events[i])
  }

  predicate ErrorsPlaced<D(==)>(p: ErrorParsers<D>, lines: seq<Line>, events: seq<ErrorEvent<D>>) {
    forall i | 0 <= i < |events| :: ErrorPlaced(p, lines, events, i)
  }

  /** Every line was taken: the header, and then one event each. */
  predicate ErrorsComplete<D(==)>(p: ErrorParsers<D>, lines: seq<Line>, c: Errors, events: seq<ErrorEvent<D>>) {
    && ErrorsPlaced(p, lines, events)
    && c.nextSequence == |events| + 1
    && |events| == (if lines == [] then 0 else |lines| - 1)
    && (if lines == [] then c.transport.None?
        else Sealed(lines[0]) && p.header(lines[0]).Some? && c.transport == p.header(lines[0]))
  }

  lemma ErrorsPlacedBefore<D>(p: ErrorParsers<D>, lines: seq<Line>, line: Line, events: seq<ErrorEvent<D>>)
    requires ErrorsPlaced(p, lines, events)
    ensures ErrorsPlaced(p, lines + [line], events)
  {
    hide Sealed;
    var after := lines + [line];
    forall i | 0 <= i < |events| ensures ErrorPlaced(p, after, events, i) {
      assert ErrorPlaced(p, lines, events, i);
      assert after[0] == lines[0] && after[i + 1] == lines[i + 1];
    }
  }

  lemma ErrorStepKeepsPlaces<D>(p: ErrorParsers<D>, lines: seq<Line>, c: Errors, events: seq<ErrorEvent<D>>,
                                line: Line)
    requires ErrorsComplete(p, lines, c, events)
    ensures match ErrorStep(p, c, line)
            case Take(d, event) => ErrorsComplete(p, lines + [line], d, events + Queue(event))
            case Raise(_) => true
  {
    hide Sealed;
    var after, taken := lines + [line], ErrorStep(p, c, line);
    if lines == [] {
      assert after == [line] && events + [] == events;
    } else if taken.Take? {
      var n, all := |events|, events + Queue(taken.event);
      assert after[0] == lines[0] && after[n + 1] == line;
      ErrorsPlacedBefore(p, lines, line, events);
      forall i | 0 <= i < |all| ensures ErrorPlaced(p, after, all, i) {
        if i < n {
          assert ErrorPlaced(p, after, events, i) && all[i] == events[i];
        }
      }
    }
  }

  /** The error reader's events are the lines after the header, numbered 1..n. */
  lemma {:induction false} ErrorEventsAreTheLines<D>(p: ErrorParsers<D>, lines: seq<Line>)
    ensures var batch := ErrorBatch(p, lines);
            && ErrorsPlaced(p, lines, batch.events)
            && (!batch.failed ==> ErrorsComplete(p, lines, batch.core, batch.events))
  {
    if lines == [] {
      assert ErrorBatch(p, lines) == Batched(Errors(None, 1), [], false);
    } else {
      hide ErrorsPlaced, ErrorsComplete, ErrorStep;
      var n := |lines| - 1;
      ErrorEventsAreTheLines(p, lines[..n]);
      assert lines == lines[..n] + [lines[n]];
      var before := ErrorBatch(p, lines[..n]);
      ErrorsPlacedBefore(p, lines[..n], lines[n], before.events);
      if !before.failed {
        ErrorStepKeepsPlaces(p, lines[..n], before.core, before.events, lines[n]);
        CompleteIsPlaced(p, lines, ErrorBatch(p, lines).core, ErrorBatch(p, lines).events);
      }
    }
  }

  lemma CompleteIsPlaced<D>(p: ErrorParsers<D>, lines: seq<Line>, c: Errors, events: seq<ErrorEvent<D>>)
    ensures ErrorsComplete(p, lines, c, events) ==> ErrorsPlaced(p, lines, events)
  {
  }

  lemma UnsealedErrorIsRefused<D>(p: ErrorParsers<D>, c: Errors, row: Line)
    ensures !Sealed(row) ==> ErrorStep(p, c, row) == Raise(c)
    ensures ErrorStep(p, c, row).Take? ==> Sealed(row)
  {
  }

  /** The same for the error journal, whose header is sealed like its events. */
  lemma AlteredErrorStopsTheReader<D>(p: ErrorParsers<D>, before: seq<u8>, row: Line, altered: Line, i: nat,
                                      rest: seq<u8>)
    requires Journal.Parse(before).tail == []
    requires Journal.OneLine(row) && Journal.OneLine(altered) && DifferAt(row, altered, i)
    requires !ErrorBatch(p, Journal.Parse(before + (row + [Journal.NEWLINE])).lines).failed
    ensures var b := ErrorBatch(p, Journal.Parse(before).lines);
            && !b.failed
            && ErrorBatch(p, Journal.Parse(before + (altered + [Journal.NEWLINE] + rest)).lines) ==
               Batched(b.core, b.events, true)
  {
    var lines := Journal.Parse(before).lines;
    var b := ErrorBatch(p, lines);
    hide Journal.Parse, ErrorStep, Sealed;
    CompleteRow(before, row);
    BatchSnoc(ErrorStepper(p), Errors(None, 1), lines, row);
    UnsealedErrorIsRefused(p, b.core, row);
    OneAlteredByteBreaksTheSeal(row, altered, i);
    UnsealedErrorIsRefused(p, b.core, altered);
    RefusedRowEndsTheBatch(ErrorStepper(p), Errors(None, 1), before, altered, rest);
  }
}
