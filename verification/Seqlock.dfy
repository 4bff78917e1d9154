/** The generation pin that lets the controller read a whole snapshot.

    Publisher and reader take single-pin steps that interleave freely; the
    reader trusts what it read when the generation it saw before and after is
    the same even number. */
module Seqlock {
  import opened Words

  datatype Reader<V> =
    | Resting
    | Reading(first: u32, got: map<nat, V>)
    | Finished(coherent: bool, got: map<nat, V>)

  /** `counter` is the publisher's private generation, `pending` the snapshot it
      is writing and `written` how many pins of it are out. `history` records
      what the pins held initially and after every completed publication, and
      `since` its length when the reader loaded the generation first. */
  datatype State<V> = State(
    generation: u32,
    pins: seq<V>,
    counter: u32,
    pending: Option<seq<V>>,
    written: nat,
    reader: Reader<V>,
    history: seq<seq<V>>,
    since: nat)

  datatype Action<V> =
    | Begin(snapshot: seq<V>)
    | WritePin
    | Commit
    | LoadFirst
    | ReadPin(pin: nat)
    | LoadSecond

  predicate CoherentGenerations(first: u32, second: u32) {
    first == second && second % 2 == 0
  }

  /** One step; an action whose turn it is not changes nothing. */
  function Next<V>(s: State<V>, a: Action<V>): State<V> {
    match a
    case Begin(snapshot) =>
      if s.pending.Some? || |snapshot| != |s.pins| then s
      else
        var counter := WrappingAdd(s.counter, 2);
        s.(counter := counter, generation := if counter % 2 == 0 then counter + 1 else counter,
           pending := Some(snapshot), written := 0)
    case WritePin =>
      if s.pending.None? || s.written >= |s.pins| || |s.pending.value| != |s.pins| then s
      else s.(pins := s.pins[s.written := s.pending.value[s.written]], written := s.written + 1)
    case Commit =>
      if s.pending.None? || s.written < |s.pins| then s
      else s.(generation := s.counter, pending := None, history := s.history + [s.pins])
    case LoadFirst =>
      if s.reader.Reading? then s
      else s.(since := |s.history|,
              reader := if s.generation % 2 != 0 then Finished(false, map[]) else Reading(s.generation, map[]))
    case ReadPin(pin) =>
      if !s.reader.Reading? || pin >= |s.pins| then s
      else s.(reader := Reading(s.reader.first, s.reader.got[pin := s.pins[pin]]))
    case LoadSecond =>
      if !s.reader.Reading? then s
      else s.(reader := Finished(CoherentGenerations(s.reader.first, s.generation), s.reader.got))
  }

  predicate Initial<V(==)>(s: State<V>) {
    && s.generation == s.counter == 0
    && s.pending.None? && s.reader.Resting?
    && s.history == [s.pins]
  }

  function Run<V>(s: State<V>, run: seq<Action<V>>): State<V> {
    if run == [] then s else Next(Run(s, run[..|run| - 1]), run[|run| - 1])
  }

  // ---------------------------------------------------------------- invariant

  /** The generation of the n-th entry of the history. */
  function GenerationOf(n: nat): u32 {
    2 * n % 0x1_0000_0000
  }

  predicate WriterInvariant<V(==)>(s: State<V>) {
    && |s.history| > 0
    && (forall h <- s.history :: |h| == |s.pins|)
    && var last := s.history[|s.history| - 1];
    match s.pending
    case None =>
      s.counter == s.generation == GenerationOf(|s.history| - 1) && s.pins == last
    case Some(snapshot) =>
      && s.counter == GenerationOf(|s.history|) && s.generation == s.counter + 1
      && |snapshot| == |s.pins| && s.written <= |s.pins|
      && s.pins == snapshot[..s.written] + last[s.written..]
  }

  /** Nothing was published, nor begun, since the reader's first load. */
  predicate Undisturbed<V(==)>(s: State<V>) {
    s.pending.None? && |s.history| == s.since
  }

  predicate Agrees<V(==)>(s: State<V>, got: map<nat, V>)
    requires 0 < s.since <= |s.history|
  {
    forall pin <- got :: pin < |s.history[s.since - 1]| && got[pin] == s.history[s.since - 1][pin]
  }

  predicate ReaderInvariant<V(==)>(s: State<V>) {
    match s.reader
    case Resting => true
    case Reading(first, got) =>
      0 < s.since <= |s.history| && first == GenerationOf(s.since - 1) && (Undisturbed(s) ==> Agrees(s, got))
    case Finished(_, _) => true
  }

  lemma GenerationIsEven(n: nat)
    ensures GenerationOf(n) == 2 * (n % 0x8000_0000)
  {
    var q := n / 0x8000_0000;
    assert 2 * n == 0x1_0000_0000 * q + 2 * (n % 0x8000_0000);
  }

  lemma SameRemainder(m: nat, n: nat)
    requires m <= n
    ensures m % 0x8000_0000 == n % 0x8000_0000 <==> (n - m) % 0x8000_0000 == 0
  {
  }

  lemma GenerationsRepeat(m: nat, n: nat)
    requires m <= n
    ensures GenerationOf(m) == GenerationOf(n) <==> (n - m) % 0x8000_0000 == 0
    ensures GenerationOf(n) % 2 == 0
  {
    GenerationIsEven(m);
    GenerationIsEven(n);
    SameRemainder(m, n);
    hide GenerationOf;
  }

  lemma GenerationAdvances(n: nat)
    ensures WrappingAdd(GenerationOf(n), 2) == GenerationOf(n + 1)
  {
  }

  lemma BeginStep<V>(s: State<V>, snapshot: seq<V>)
    requires WriterInvariant(s)
    ensures WriterInvariant(Next(s, Begin(snapshot)))
  {
    var n := |s.history|;
    GenerationsRepeat(n, n);
    GenerationAdvances(n - 1);
    hide GenerationOf, WrappingAdd;
    assert s.pins == snapshot[..0] + s.pins[0..];
  }

  lemma PinStep<V>(pins: seq<V>, snapshot: seq<V>, last: seq<V>, i: nat)
    requires i < |pins| == |snapshot| == |last| && pins == snapshot[..i] + last[i..]
    ensures pins[i := snapshot[i]] == snapshot[..i + 1] + last[i + 1..]
  {
  }

  lemma WriterStep<V>(s: State<V>, a: Action<V>)
    requires WriterInvariant(s)
    ensures WriterInvariant(Next(s, a))
  {
    hide GenerationOf, WrappingAdd;
    match a
    case Begin(snapshot) => BeginStep(s, snapshot);
    case WritePin =>
      if s.pending.Some? && s.written < |s.pins| {
        var last := s.history[|s.history| - 1];
        assert last in s.history;
        PinStep(s.pins, s.pending.value, last, s.written);
      }
    case _ =>
  }

  lemma ReaderStep<V>(s: State<V>, a: Action<V>)
    requires WriterInvariant(s) && ReaderInvariant(s)
    ensures ReaderInvariant(Next(s, a))
  {
    hide GenerationOf, WrappingAdd;
    GenerationsRepeat(|s.history|, |s.history|);
    if a.Commit? && Next(s, a) != s && s.reader.Reading? {
      assert Next(s, a).history[s.since - 1] == s.history[s.since - 1];
    }
  }

  lemma {:induction false} EveryStateIsConsistent<V>(s: State<V>, run: seq<Action<V>>)
    requires Initial(s)
    ensures WriterInvariant(Run(s, run)) && ReaderInvariant(Run(s, run))
  {
    if run != [] {
      EveryStateIsConsistent(s, run[..|run| - 1]);
      WriterStep(Run(s, run[..|run| - 1]), run[|run| - 1]);
      ReaderStep(Run(s, run[..|run| - 1]), run[|run| - 1]);
    }
  }

  // ----------------------------------------------------------------- theorems

  /** The reader accepts exactly when no publication is under way and the number
      completed during the read is a multiple of 2^31, where the 32-bit
      generation repeats. */
  lemma CoherentExactly<V>(s: State<V>, run: seq<Action<V>>)
    requires Initial(s) && Run(s, run).reader.Reading?
    ensures var r := Run(s, run);
            Next(r, LoadSecond).reader.coherent <==>
            r.pending.None? && (|r.history| - r.since) % 0x8000_0000 == 0
  {
    hide GenerationOf, Run;
    EveryStateIsConsistent(s, run);
    var r := Run(s, run);
    GenerationsRepeat(r.since - 1, |r.history| - 1);
    GenerationsRepeat(|r.history|, |r.history|);
  }

  /** A read starts exactly when no publication is under way; otherwise it is over at
      once, empty and refused. So only a completed read is ever accepted. */
  lemma OnlyCompletedReadsAreAccepted<V>(s: State<V>, run: seq<Action<V>>, a: Action<V>)
    requires Initial(s)
    ensures var r, t := Run(s, run), Next(Run(s, run), a);
            && (a.LoadFirst? && !r.reader.Reading? ==>
                  t.reader == if r.pending.None? then Reading(r.generation, map[]) else Finished(false, map[]))
            && (t.reader.Finished? && t.reader.coherent && r.reader != t.reader ==>
                  a.LoadSecond? && r.reader.Reading? && t.reader.got == r.reader.got)
  {
    hide GenerationOf, Run;
    EveryStateIsConsistent(s, run);
    GenerationsRepeat(|Run(s, run).history|, |Run(s, run).history|);
    GenerationIsEven(|Run(s, run).history| - 1);
    GenerationIsEven(|Run(s, run).history|);
  }

  /** A snapshot read coherently within 2^31 publications is one snapshot: every
      pin holds what the same publication wrote, and that publication was still
      the latest at the end of the read. */
  lemma CoherentReadIsOneSnapshot<V>(s: State<V>, run: seq<Action<V>>)
    requires Initial(s) && Run(s, run).reader.Reading?
    requires Next(Run(s, run), LoadSecond).reader.coherent
    requires var r := Run(s, run); |r.history| - r.since < 0x8000_0000
    ensures var r := Run(s, run);
            && |r.history| == r.since > 0
            && var last := r.history[|r.history| - 1];
            && forall pin <- r.reader.got :: pin < |last| && r.reader.got[pin] == last[pin]
  {
    hide Run, Next, GenerationOf;
    EveryStateIsConsistent(s, run);
    CoherentExactly(s, run);
  }

  // ------------------------------------------------------ the bound is exact

  lemma {:induction false} RunConcat<V>(s: State<V>, a: seq<Action<V>>, b: seq<Action<V>>)
    ensures Run(s, a + b) == Run(Run(s, a), b)
  {
    if b == [] {
      assert a + b == a;
    } else {
      assert (a + b)[..|a + b| - 1] == a + b[..|b| - 1];
      RunConcat(s, a, b[..|b| - 1]);
    }
  }

  function Publication<V>(snapshot: seq<V>): seq<Action<V>> {
    [Begin(snapshot), WritePin, WritePin, Commit]
  }

  function Publications<V>(snapshot: seq<V>, n: nat): seq<Action<V>> {
    if n == 0 then [] else Publications(snapshot, n - 1) + Publication(snapshot)
  }

  /** The reader has taken one of two pins, and since then `n` publications of
      `snapshot` have been completed. */
  predicate HalfRead<V(==)>(s: State<V>, first: V, snapshot: seq<V>, n: nat) {
    && |snapshot| == 2 && |s.pins| == 2 && s.pending.None?
    && s.reader.Reading? && s.reader.got == map[0 := first]
    && s.since == 1 && |s.history| == n + 1
    && (n > 0 ==> s.pins == snapshot)
    && |s.history[0]| == 2 && forall k | 1 <= k <= n :: s.history[k] == snapshot
  }

  lemma OnePublication<V>(s: State<V>, first: V, snapshot: seq<V>, n: nat)
    requires HalfRead(s, first, snapshot, n)
    ensures HalfRead(Run(s, Publication(snapshot)), first, snapshot, n + 1)
    ensures Run(s, Publication(snapshot)).history[0] == s.history[0]
  {
    hide WrappingAdd;
    var p := Publication(snapshot);
    assert p[..3][..2] == p[..2] && p[..2][..1] == p[..1] && p[..1][..0] == [];
    var begun := Next(s, Begin(snapshot));
    assert Run(s, p[..1]) == begun;
    var half := Next(begun, WritePin);
    assert Run(s, p[..2]) == half;
    var full := Next(half, WritePin);
    assert Run(s, p[..3]) == full;
    assert full.pins == snapshot;
  }

  lemma {:induction false} ManyPublications<V>(s: State<V>, first: V, snapshot: seq<V>, n: nat)
    requires HalfRead(s, first, snapshot, 0)
    ensures HalfRead(Run(s, Publications(snapshot, n)), first, snapshot, n)
    ensures Run(s, Publications(snapshot, n)).history[0] == s.history[0]
  {
    hide HalfRead, Publication;
    if n > 0 {
      ManyPublications(s, first, snapshot, n - 1);
      RunConcat(s, Publications(snapshot, n - 1), Publication(snapshot));
      OnePublication(Run(s, Publications(snapshot, n - 1)), first, snapshot, n - 1);
    }
  }

  /** Every pin that was read holds what the snapshot `h` put there. */
  predicate IsPartOf<V(==)>(got: map<nat, V>, h: seq<V>) {
    forall pin <- got :: pin < |h| && got[pin] == h[pin]
  }

  /** At 2^31 publications it fails: a reader that takes one pin before and one
      after them accepts a pair that no snapshot ever held. */
  lemma TornReadAccepted<V>(x: V, y: V) returns (s: State<V>, run: seq<Action<V>>)
    requires x != y
    ensures Initial(s) && Run(s, run).reader.Reading?
    ensures var r := Run(s, run);
            && |r.history| - r.since == 0x8000_0000
            && Next(r, LoadSecond).reader.coherent
            && forall h <- r.history :: !IsPartOf(r.reader.got, h)
  {
    var snapshot := [y, y];
    s := State(0, [x, x], 0, None, 0, Resting, [[x, x]], 0);
    var first: seq<Action<V>> := [LoadFirst, ReadPin(0)];
    var u := Run(s, first);
    assert first[..1][..0] == [] && Run(s, first[..1]) == Next(s, LoadFirst);
    assert u == Next(Next(s, LoadFirst), ReadPin(0));
    var n := 0x8000_0000;
    ManyPublications(u, x, snapshot, n);
    var v := Run(u, Publications(snapshot, n));
    RunConcat(s, first, Publications(snapshot, n));
    run := first + Publications(snapshot, n) + [ReadPin(1)];
    assert run[..|run| - 1] == first + Publications(snapshot, n);
    var r := Run(s, run);
    assert r == Next(v, ReadPin(1));
    hide Run, Publications;
    CoherentExactly(s, run);
    forall h <- r.history ensures !IsPartOf(r.reader.got, h) {
      assert 0 in r.reader.got && r.reader.got[0] == x;
      assert 1 in r.reader.got && r.reader.got[1] == y;
    }
  }
}
