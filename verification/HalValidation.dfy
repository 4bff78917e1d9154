/** The launcher's wiring check: over all HAL sources, no pin on two signals. */
module HalValidation {
  import opened Words
  import opened Text

  /** What reading one of the sources gives. */
  datatype Source = Readable(text: string) | Unreadable | InvalidUtf8

  datatype Assignment = Assignment(signal: string, path: nat, line: nat)

  type Assignments = map<string, Assignment>

  datatype Error =
    | ReadFailure(path: nat)
    | SourceInvalidUtf8(path: nat)
    | PinSignalConflict(pin: string, first: Assignment, conflicting: Assignment)

  // ------------------------------------------------------------------ one source

  /** Rust's `lines`: no final empty line, no carriage return before the newline. */
  function TextLines(text: string): seq<string> {
    var pieces := Split(text, '\n');
    var kept := if pieces[|pieces| - 1] == "" then pieces[..|pieces| - 1] else pieces;
    seq(|kept|, i requires 0 <= i < |kept| =>
      if i < |pieces| - 1 && kept[i] != "" && kept[i][|kept[i]| - 1] == '\r' then kept[i][..|kept[i]| - 1]
      else kept[i])
  }

  predicate IsAsciiSpace(c: char) {
    c == ' ' || c == '\t' || c == '\n' || c as int == 12 || c == '\r'
  }

  /** `split_ascii_whitespace`: the maximal runs without white space. */
  function SplitWords(s: string): seq<string> {
    if s == "" then []
    else if IsAsciiSpace(s[0]) then SplitWords(s[1..])
    else
      var rest := SplitWords(s[1..]);
      if |s| > 1 && !IsAsciiSpace(s[1]) && rest != [] then [[s[0]] + rest[0]] + rest[1..] else [[s[0]]] + rest
  }

  function Code(line: string): string {
    match Partition(line, '#') case None => line case Some((code, _)) => code
  }

  predicate IsArrow(word: string) {
    word == "=>" || word == "<=" || word == "<=>"
  }

  function WithoutArrows(words: seq<string>): seq<string> {
    if words == [] then []
    else if IsArrow(words[0]) then WithoutArrows(words[1..])
    else [words[0]] + WithoutArrows(words[1..])
  }

  datatype Net = Net(signal: string, pins: seq<string>)

  /** A `net` command with a signal; every other line says nothing about wiring. */
  function NetOf(line: string): Option<Net> {
    var words := SplitWords(Code(line));
    if |words| < 2 || words[0] != "net" then None else Some(Net(words[1], WithoutArrows(words[2..])))
  }

  datatype Observation = Observation(pin: string, assignment: Assignment)

  function LineObservations(path: nat, number: nat, line: string): seq<Observation> {
    match NetOf(line)
    case None => []
    case Some(net) =>
      seq(|net.pins|, i requires 0 <= i < |net.pins| =>
        Observation(net.pins[i], Assignment(net.signal, path, number)))
  }

  function SourceObservations(path: nat, lines: seq<string>): seq<Observation> {
    if lines == [] then []
    else
      SourceObservations(path, lines[..|lines| - 1]) + LineObservations(path, |lines|, lines[|lines| - 1])
  }

  /** Taking in observations in order, up to the first conflict. */
  function Take(m: Assignments, observations: seq<Observation>): Result<Assignments, Error> {
    if observations == [] then Ok(m)
    else
      var before := Take(m, observations[..|observations| - 1]);
      if before.Err? then before
      else Assign(before.value, observations[|observations| - 1])
  }

  function Assign(m: Assignments, o: Observation): Result<Assignments, Error> {
    if o.pin !in m then Ok(m[o.pin := o.assignment])
    else if m[o.pin].signal != o.assignment.signal then Err(PinSignalConflict(o.pin, m[o.pin], o.assignment))
    else Ok(m)
  }

  lemma TakeSnoc(m: Assignments, observations: seq<Observation>, o: Observation)
    ensures var before := Take(m, observations);
            Take(m, observations + [o]) == if before.Err? then before else Assign(before.value, o)
  {
    assert (observations + [o])[..|observations|] == observations;
  }

  lemma {:induction false} TakeConcat(m: Assignments, a: seq<Observation>, b: seq<Observation>)
    ensures Take(m, a + b) == if Take(m, a).Err? then Take(m, a) else Take(Take(m, a).value, b)
  {
    if b == [] {
      assert a + b == a;
    } else {
      var n := |b| - 1;
      TakeConcat(m, a, b[..n]);
      assert (a + b)[..|a + b| - 1] == a + b[..n];
    }
  }

  /** `validate_source`: the loops over lines and over pins. */
  method ValidateSource(path: nat, text: string, assignments: Assignments) returns (r: Result<Assignments, Error>)
    ensures r == Take(assignments, SourceObservations(path, TextLines(text)))
  {
    hide TextLines, LineObservations;
    var lines := TextLines(text);
    var current := assignments;
    for i := 0 to |lines|
      invariant Take(assignments, SourceObservations(path, lines[..i])) == Ok(current)
    {
      assert lines[..i + 1][..i] == lines[..i];
      ghost var done := SourceObservations(path, lines[..i]);
      ghost var here := LineObservations(path, i + 1, lines[i]);
      TakeConcat(assignments, done, here);
      r := ValidateLine(path, i + 1, lines[i], current);
      if r.Err? {
        StopsHere(assignments, path, lines, i + 1);
        return;
      }
      current := r.value;
    }
    assert lines[..|lines|] == lines;
    return Ok(current);
  }

  lemma {:induction false} StopsHere(m: Assignments, path: nat, lines: seq<string>, n: nat)
    requires n <= |lines| && Take(m, SourceObservations(path, lines[..n])).Err?
    ensures Take(m, SourceObservations(path, lines)) == Take(m, SourceObservations(path, lines[..n]))
    decreases |lines|
  {
    if n == |lines| {
      assert lines[..n] == lines;
    } else {
      var front := lines[..|lines| - 1];
      assert front[..n] == lines[..n];
      StopsHere(m, path, front, n);
      TakeConcat(m, SourceObservations(path, front), LineObservations(path, |lines|, lines[|lines| - 1]));
    }
  }

  method ValidateLine(path: nat, number: nat, line: string, assignments: Assignments)
    returns (r: Result<Assignments, Error>)
    ensures r == Take(assignments, LineObservations(path, number, line))
  {
    hide SplitWords, Code, WithoutArrows;
    var net := NetOf(line);
    if net.None? {
      return Ok(assignments);
    }
    var current := assignments;
    ghost var all := LineObservations(path, number, line);
    for i := 0 to |net.value.pins|
      invariant Take(assignments, all[..i]) == Ok(current)
    {
      var observed := Assignment(net.value.signal, path, number);
      var pin := net.value.pins[i];
      TakeSnoc(assignments, all[..i], all[i]);
      assert all[..i + 1] == all[..i] + [all[i]];
      if pin in current {
        if current[pin].signal != observed.signal {
          TakeConcat(assignments, all[..i + 1], all[i + 1..]);
          assert all == all[..i + 1] + all[i + 1..];
          return Err(PinSignalConflict(pin, current[pin], observed));
        }
      } else {
        current := current[pin := observed];
      }
    }
    assert all[..|all|] == all;
    return Ok(current);
  }

  // ------------------------------------------------------------------ all sources

  function ObservationsOf(path: nat, source: Source): seq<Observation> {
    if source.Readable? then SourceObservations(path, TextLines(source.text)) else []
  }

  function AllObservations(sources: seq<Source>): seq<Observation> {
    if sources == [] then []
    else AllObservations(sources[..|sources| - 1]) + ObservationsOf(|sources| - 1, sources[|sources| - 1])
  }

  function Verdict(sources: seq<Source>): Result<Assignments, Error> {
    if sources == [] then Ok(map[])
    else
      var n := |sources| - 1;
      var before := Verdict(sources[..n]);
      if before.Err? then before
      else
        match sources[n]
        case Unreadable => Err(ReadFailure(n))
        case InvalidUtf8 => Err(SourceInvalidUtf8(n))
        case Readable(text) => Take(before.value, SourceObservations(n, TextLines(text)))
  }

  /** `validate`: one source after the other, with the map carried along. */
  method Validate(sources: seq<Source>) returns (r: Result<Assignments, Error>)
    ensures r == Verdict(sources)
  {
    hide Take, SourceObservations, TextLines;
    var assignments: Assignments := map[];
    for i := 0 to |sources|
      invariant Verdict(sources[..i]) == Ok(assignments)
    {
      assert sources[..i + 1][..i] == sources[..i];
      match sources[i] {
        case Unreadable => r := Err(ReadFailure(i));
        case InvalidUtf8 => r := Err(SourceInvalidUtf8(i));
        case Readable(text) => r := ValidateSource(i, text, assignments);
      }
      if r.Err? {
        VerdictStops(sources, i + 1);
        return;
      }
      assignments := r.value;
    }
    assert sources[..|sources|] == sources;
    return Ok(assignments);
  }

  lemma {:induction false} VerdictStops(sources: seq<Source>, n: nat)
    requires n <= |sources| && Verdict(sources[..n]).Err?
    ensures Verdict(sources) == Verdict(sources[..n])
    decreases |sources|
  {
    if n == |sources| {
      assert sources[..n] == sources;
    } else {
      assert sources[..|sources| - 1][..n] == sources[..n];
      VerdictStops(sources[..|sources| - 1], n);
    }
  }

  // ------------------------------------------------------------------ the verdict

  /** The wiring relation is a function: no pin is observed on two signals. */
  predicate Functional(observations: seq<Observation>) {
    forall i, j | 0 <= i < j < |observations| ::
      observations[i].pin == observations[j].pin
      ==> observations[i].assignment.signal == observations[j].assignment.signal
  }

  /** The map holds each observed pin, at its first place, and no other. */
  predicate Records(m: Assignments, observations: seq<Observation>) {
    && (forall i | 0 <= i < |observations| :: observations[i].pin in m)
    && (forall pin <- m :: exists i ::
          0 <= i < |observations| && observations[i] == Observation(pin, m[pin])
          && forall j | 0 <= j < i :: observations[j].pin != pin)
  }

  lemma {:induction false} TakenExactly(observations: seq<Observation>)
    ensures Take(map[], observations).Ok? <==> Functional(observations)
    ensures Take(map[], observations).Ok? ==> Records(Take(map[], observations).value, observations)
  {
    if observations == [] {
      assert Records(map[], []);
    } else {
      var n := |observations| - 1;
      var before, o := observations[..n], observations[n];
      TakenExactly(before);
      assert observations == before + [o];
      if Functional(before) {
        var m := Take(map[], before).value;
        FunctionalSnoc(m, before, o);
        hide Functional, Records;
        if o.pin in m {
          StillRecords(m, before, o);
        } else {
          NewRecord(m, before, o);
        }
      } else {
        NotFunctionalSnoc(before, o);
      }
    }
  }

  lemma NotFunctionalSnoc(before: seq<Observation>, o: Observation)
    requires !Functional(before)
    ensures !Functional(before + [o])
  {
    var i, j :| 0 <= i < j < |before| && before[i].pin == before[j].pin
                && before[i].assignment.signal != before[j].assignment.signal;
    assert (before + [o])[i] == before[i] && (before + [o])[j] == before[j];
  }

  lemma FunctionalSnoc(m: Assignments, before: seq<Observation>, o: Observation)
    requires Functional(before) && Records(m, before)
    ensures Functional(before + [o]) <==> (o.pin in m ==> m[o.pin].signal == o.assignment.signal)
  {
    var after := before + [o];
    if o.pin in m {
      var i :| 0 <= i < |before| && before[i] == Observation(o.pin, m[o.pin]);
      assert after[i] == before[i] && after[|before|] == o;
    } else {
      assert forall i | 0 <= i < |before| :: before[i].pin != o.pin;
    }
  }

  lemma StillRecords(m: Assignments, before: seq<Observation>, o: Observation)
    requires Records(m, before) && o.pin in m
    ensures Records(m, before + [o])
  {
    forall pin <- m
      ensures exists i :: 0 <= i < |before + [o]| && (before + [o])[i] == Observation(pin, m[pin])
                          && forall j | 0 <= j < i :: (before + [o])[j].pin != pin
    {
      var i :| 0 <= i < |before| && before[i] == Observation(pin, m[pin])
               && forall j | 0 <= j < i :: before[j].pin != pin;
      assert (before + [o])[i] == before[i];
    }
  }

  lemma NewRecord(m: Assignments, before: seq<Observation>, o: Observation)
    requires Records(m, before) && o.pin !in m
    ensures Records(m[o.pin := o.assignment], before + [o])
  {
    var after, d := before + [o], m[o.pin := o.assignment];
    forall pin <- d
      ensures exists i :: 0 <= i < |after| && after[i] == Observation(pin, d[pin])
                          && forall j | 0 <= j < i :: after[j].pin != pin
    {
      if pin == o.pin {
        assert after[|before|] == Observation(pin, d[pin]);
      } else {
        var i :| 0 <= i < |before| && before[i] == Observation(pin, m[pin])
                 && forall j | 0 <= j < i :: before[j].pin != pin;
        assert after[i] == before[i];
      }
    }
  }

  lemma {:induction false} VerdictIsTake(sources: seq<Source>)
    requires forall source <- sources :: source.Readable?
    ensures Verdict(sources) == Take(map[], AllObservations(sources))
  {
    if sources != [] {
      var n := |sources| - 1;
      VerdictIsTake(sources[..n]);
      TakeConcat(map[], AllObservations(sources[..n]), ObservationsOf(n, sources[n]));
    }
  }

  lemma {:induction false} UnreadableRefused(sources: seq<Source>)
    requires exists source <- sources :: !source.Readable?
    ensures Verdict(sources).Err?
  {
    var n := |sources| - 1;
    if sources[n].Readable? {
      var source :| source in sources && !source.Readable?;
      assert source in sources[..n];
      UnreadableRefused(sources[..n]);
    }
  }

  /** Validation succeeds exactly when every source can be read and no pin stands
      on two signals; its map then holds exactly the pins named. */
  lemma ValidExactly(sources: seq<Source>)
    ensures Verdict(sources).Ok? <==>
            (forall source <- sources :: source.Readable?) && Functional(AllObservations(sources))
    ensures Verdict(sources).Ok? ==> Records(Verdict(sources).value, AllObservations(sources))
  {
    if forall source <- sources :: source.Readable? {
      VerdictIsTake(sources);
      TakenExactly(AllObservations(sources));
    } else {
      UnreadableRefused(sources);
    }
  }

  // -------------------------------------------------------------- order of sources

  predicate SaysNet(line: string, pin: string, signal: string) {
    NetOf(line).Some? && NetOf(line).value.signal == signal && pin in NetOf(line).value.pins
  }

  /** Some line of `source` nets `pin` to `signal`. */
  predicate Nets(source: Source, pin: string, signal: string) {
    source.Readable? && exists line <- TextLines(source.text) :: SaysNet(line, pin, signal)
  }

  predicate ConnectedIn(sources: seq<Source>, pin: string, signal: string) {
    exists source <- sources :: Nets(source, pin, signal)
  }

  predicate Observes(observations: seq<Observation>, pin: string, signal: string) {
    exists o <- observations :: o.pin == pin && o.assignment.signal == signal
  }

  lemma SeenConcat(a: seq<Observation>, b: seq<Observation>, pin: string, signal: string)
    ensures Observes(a + b, pin, signal) <==> Observes(a, pin, signal) || Observes(b, pin, signal)
  {
    if Observes(a, pin, signal) {
      var o :| o in a && o.pin == pin && o.assignment.signal == signal;
      assert o in a + b;
    } else if Observes(b, pin, signal) {
      var o :| o in b && o.pin == pin && o.assignment.signal == signal;
      assert o in a + b;
    }
  }

  lemma LineNets(path: nat, number: nat, line: string, pin: string, signal: string)
    ensures Observes(LineObservations(path, number, line), pin, signal) <==> SaysNet(line, pin, signal)
  {
    hide NetOf;
    var observations := LineObservations(path, number, line);
    if SaysNet(line, pin, signal) {
      var i :| 0 <= i < |NetOf(line).value.pins| && NetOf(line).value.pins[i] == pin;
      assert observations[i] in observations && observations[i].pin == pin;
    }
  }

  lemma {:induction false} SourceNets(path: nat, lines: seq<string>, pin: string, signal: string)
    ensures Observes(SourceObservations(path, lines), pin, signal) <==>
            exists line <- lines :: SaysNet(line, pin, signal)
  {
    hide LineObservations, SaysNet;
    if lines == [] {
      assert !Observes([], pin, signal);
    } else {
      hide Observes;
      var n := |lines| - 1;
      SourceNets(path, lines[..n], pin, signal);
      LineNets(path, n + 1, lines[n], pin, signal);
      SeenConcat(SourceObservations(path, lines[..n]), LineObservations(path, n + 1, lines[n]), pin, signal);
      assert lines == lines[..n] + [lines[n]];
    }
  }

  lemma OneSourceNets(path: nat, source: Source, pin: string, signal: string)
    ensures Observes(ObservationsOf(path, source), pin, signal) <==> Nets(source, pin, signal)
  {
    hide SourceObservations, TextLines, SaysNet;
    if source.Readable? {
      SourceNets(path, TextLines(source.text), pin, signal);
    } else {
      assert !Observes([], pin, signal);
    }
  }

  lemma {:induction false} SourcesNet(sources: seq<Source>, pin: string, signal: string)
    ensures Observes(AllObservations(sources), pin, signal) <==> ConnectedIn(sources, pin, signal)
  {
    hide ObservationsOf, Nets;
    if sources == [] {
      assert !Observes([], pin, signal);
    } else {
      hide Observes;
      var n := |sources| - 1;
      SourcesNet(sources[..n], pin, signal);
      OneSourceNets(n, sources[n], pin, signal);
      SeenConcat(AllObservations(sources[..n]), ObservationsOf(n, sources[n]), pin, signal);
      assert sources == sources[..n] + [sources[n]];
    }
  }

  ghost predicate Consistent(sources: seq<Source>) {
    forall pin, s, t :: ConnectedIn(sources, pin, s) && ConnectedIn(sources, pin, t) ==> s == t
  }

  lemma FunctionalIsConsistent(sources: seq<Source>)
    ensures Functional(AllObservations(sources)) <==> Consistent(sources)
  {
    hide ConnectedIn, AllObservations;
    var all := AllObservations(sources);
    if Functional(all) {
      forall pin, s, t | ConnectedIn(sources, pin, s) && ConnectedIn(sources, pin, t) ensures s == t {
        SourcesNet(sources, pin, s);
        SourcesNet(sources, pin, t);
        var o :| o in all && o.pin == pin && o.assignment.signal == s;
        var p :| p in all && p.pin == pin && p.assignment.signal == t;
      }
    }
    if Consistent(sources) {
      forall i, j | 0 <= i < j < |all| && all[i].pin == all[j].pin
        ensures all[i].assignment.signal == all[j].assignment.signal
      {
        SourcesNet(sources, all[i].pin, all[i].assignment.signal);
        SourcesNet(sources, all[i].pin, all[j].assignment.signal);
        assert all[i] in all && all[j] in all;
      }
    }
  }

  /** The verdict does not depend on the order in which the sources are read. */
  lemma VerdictIgnoresOrder(a: seq<Source>, b: seq<Source>)
    requires multiset(a) == multiset(b)
    ensures Verdict(a).Ok? <==> Verdict(b).Ok?
  {
    hide Verdict, Nets, AllObservations, Functional, Records;
    forall source ensures source in a <==> source in b {
      assert source in multiset(a) <==> source in multiset(b);
    }
    ValidExactly(a);
    ValidExactly(b);
    FunctionalIsConsistent(a);
    FunctionalIsConsistent(b);
    assert forall pin, signal :: ConnectedIn(a, pin, signal) <==> ConnectedIn(b, pin, signal);
  }
}
