/** The E-stop recovery gesture: a stage machine over pendant samples, and the
    regular language of gestures it recognises. */
module Recovery {
  import opened Words
  import opened Protocol
  import opened Pendant

  datatype Stage =
    | Inactive
    | WaitEstopRelease
    | WaitX10
    | WaitX1
    | WaitOff
    | WaitClockwise
    | WaitCounterclockwise
    | WaitButtonPress
    | WaitButtonRelease
    | CompletePending

  datatype Update = Update(stage: Stage, restarted: bool, unlockRequested: bool)

  datatype Machine = Machine(stage: Stage, clicks: nat, quadratureErrors: Option<u32>) {
    /** Reachable field combinations: a baseline exactly while active, and
        clicks counted only in the button stages. */
    predicate Valid() {
      && (stage.Inactive? <==> quadratureErrors.None?)
      && (if stage.WaitButtonPress? || stage.WaitButtonRelease? then clicks <= 2
          else if stage.CompletePending? then clicks == 3
          else clicks == 0)
    }
  }

  const IDLE := Machine(Inactive, 0, None)

  // ------------------------------------------------------- sample predicates

  predicate ReleasedX10(s: Sample) {
    s.axis.X? && s.multiplier.X10? && s.selectorValid && !s.deadmanHeld
  }

  predicate ReleasedX1(s: Sample) {
    s.axis.X? && s.multiplier.X1? && s.selectorValid && !s.deadmanHeld
  }

  predicate ReleasedOff(s: Sample) {
    s.axis.AxisOff? && s.multiplier.MultiplierOff? && !s.selectorValid && !s.deadmanHeld
  }

  predicate OffX1ButtonHeld(s: Sample) {
    s.axis.AxisOff? && s.multiplier.X1? && !s.selectorValid && s.deadmanHeld
  }

  // --------------------------------------------------------------- the class

  class EstopRecoverySequence {
    var stage: Stage
    var clicks: u8
    var quadratureErrors: Option<u32>

    ghost function Abs(): Machine
      reads this
    {
      Machine(stage, clicks, quadratureErrors)
    }

    ghost predicate Valid()
      reads this
    {
      Abs().Valid()
    }

    constructor ()
      ensures Valid() && Abs() == IDLE
    {
      stage, clicks, quadratureErrors := Inactive, 0, None;
    }

    method Engage(sample: Sample) returns (u: Update)
      modifies this
      ensures Valid() && Abs() == Machine(WaitEstopRelease, 0, Some(sample.quadratureErrors))
      ensures u == Update(WaitEstopRelease, false, false)
    {
      stage := WaitEstopRelease;
      clicks := 0;
      quadratureErrors := Some(sample.quadratureErrors);
      u := Update(stage, false, false);
    }

    method AcceptUnlock()
      modifies this
      ensures Valid() && Abs() == IDLE
    {
      stage, clicks, quadratureErrors := Inactive, 0, None;
    }

    method Restart(sample: Sample)
      modifies this
      ensures Valid() && Abs() == Fresh(sample)
    {
      stage := WaitX10;
      clicks := 0;
      quadratureErrors := Some(sample.quadratureErrors);
    }

    method RestartUpdate(sample: Sample) returns (u: Update)
      modifies this
      ensures Valid() && Abs() == Fresh(sample) && u == Update(WaitX10, true, false)
    {
      Restart(sample);
      u := Update(stage, true, false);
    }

    method ProcessSample(sample: Sample) returns (u: Update)
      requires Valid()
      modifies this
      ensures Valid()
      ensures Abs() == Next(old(Abs()), sample)
      ensures u == Report(old(Abs()), sample)
    {
      if stage.Inactive? {
        return Update(stage, false, false);
      }
      if sample.estopPressed {
        stage := WaitEstopRelease;
        clicks := 0;
        quadratureErrors := Some(sample.quadratureErrors);
        return Update(stage, false, false);
      }
      if quadratureErrors != Some(sample.quadratureErrors) {
        u := RestartUpdate(sample);
        return;
      }
      var signal := sample.latestDetent;
      if !(-1 <= signal <= 1) {
        u := RestartUpdate(sample);
        return;
      }
      match stage {
        case Inactive =>
        case WaitEstopRelease =>
          clicks := 0;
          stage := if ReleasedX10(sample) && signal == 0 then WaitX1 else WaitX10;
        case WaitX10 =>
          if ReleasedX10(sample) && signal == 0 {
            stage := WaitX1;
          }
        case WaitX1 =>
          if ReleasedX10(sample) && signal == 0 {
            return Update(stage, false, false);
          }
          if !(ReleasedX1(sample) && signal == 0) {
            u := RestartUpdate(sample);
            return;
          }
          stage := WaitOff;
        case WaitOff =>
          if ReleasedX1(sample) && signal == 0 {
            return Update(stage, false, false);
          }
          if !(ReleasedOff(sample) && signal == 0) {
            u := RestartUpdate(sample);
            return;
          }
          stage := WaitClockwise;
        case WaitClockwise =>
          if !ReleasedOff(sample) || signal == -1 {
            u := RestartUpdate(sample);
            return;
          }
          if signal == 1 {
            stage := WaitCounterclockwise;
          }
        case WaitCounterclockwise =>
          if !ReleasedOff(sample) {
            u := RestartUpdate(sample);
            return;
          }
          if signal == -1 {
            stage := WaitButtonPress;
          }
        case WaitButtonPress =>
          if ReleasedOff(sample) {
            if signal == 0 || (signal == -1 && clicks == 0) {
              return Update(stage, false, false);
            }
            u := RestartUpdate(sample);
            return;
          }
          if !(OffX1ButtonHeld(sample) && signal == 0) {
            u := RestartUpdate(sample);
            return;
          }
          stage := WaitButtonRelease;
        case WaitButtonRelease =>
          if OffX1ButtonHeld(sample) && signal == 0 {
            return Update(stage, false, false);
          }
          if !(ReleasedOff(sample) && signal == 0) {
            u := RestartUpdate(sample);
            return;
          }
          clicks := clicks + 1;
          if clicks == 3 {
            stage := CompletePending;
            return Update(stage, false, true);
          }
          stage := WaitButtonPress;
        case CompletePending =>
      }
      u := Update(stage, false, false);
    }
  }

  // ------------------------------------------------ specification of one step

  /** What a sample shows, among the shapes the gesture is made of. */
  datatype Letter = LX10 | LX1 | LOff | LCw | LCcw | LHeld | LOther

  function LetterOf(s: Sample): Letter {
    if s.latestDetent == 0 && ReleasedX10(s) then LX10
    else if s.latestDetent == 0 && ReleasedX1(s) then LX1
    else if s.latestDetent == 0 && OffX1ButtonHeld(s) then LHeld
    else if ReleasedOff(s) && s.latestDetent == 0 then LOff
    else if ReleasedOff(s) && s.latestDetent == 1 then LCw
    else if ReleasedOff(s) && s.latestDetent == -1 then LCcw
    else LOther
  }

  /** A sample that can take part in a gesture begun at counter value `q`. */
  predicate Clean(s: Sample, q: u32) {
    !s.estopPressed && s.quadratureErrors == q && -1 <= s.latestDetent <= 1
  }

  datatype Point = Point(stage: Stage, clicks: nat)

  predicate Midway(p: Point) {
    || ((p.stage.WaitX1? || p.stage.WaitOff? || p.stage.WaitClockwise? || p.stage.WaitCounterclockwise?)
        && p.clicks == 0)
    || ((p.stage.WaitButtonPress? || p.stage.WaitButtonRelease?) && p.clicks <= 2)
  }

  /** Progress inside a gesture; `None` means the gesture is broken off. */
  function Advance(p: Point, l: Letter): Option<Point> {
    match (p.stage, l)
    case (WaitX1, LX10) => Some(p)
    case (WaitX1, LX1) => Some(Point(WaitOff, p.clicks))
    case (WaitOff, LX1) => Some(p)
    case (WaitOff, LOff) => Some(Point(WaitClockwise, p.clicks))
    case (WaitClockwise, LOff) => Some(p)
    case (WaitClockwise, LCw) => Some(Point(WaitCounterclockwise, p.clicks))
    case (WaitCounterclockwise, LOff) => Some(p)
    case (WaitCounterclockwise, LCw) => Some(p)
    case (WaitCounterclockwise, LCcw) => Some(Point(WaitButtonPress, p.clicks))
    case (WaitButtonPress, LOff) => Some(p)
    case (WaitButtonPress, LCcw) => if p.clicks == 0 then Some(p) else None
    case (WaitButtonPress, LHeld) => Some(Point(WaitButtonRelease, p.clicks))
    case (WaitButtonRelease, LHeld) => Some(p)
    case (WaitButtonRelease, LOff) =>
      Some(Point(if p.clicks == 2 then CompletePending else WaitButtonPress, p.clicks + 1))
    case _ => None
  }

  function Fresh(sample: Sample): Machine {
    Machine(WaitX10, 0, Some(sample.quadratureErrors))
  }

  function Next(m: Machine, sample: Sample): Machine {
    if m.stage.Inactive? then m
    else if sample.estopPressed then Machine(WaitEstopRelease, 0, Some(sample.quadratureErrors))
    else if m.quadratureErrors.None? || !Clean(sample, m.quadratureErrors.value) then Fresh(sample)
    else if m.stage.WaitEstopRelease? || m.stage.WaitX10? then
      Machine(if LetterOf(sample) == LX10 then WaitX1 else WaitX10, m.clicks, m.quadratureErrors)
    else if m.stage.CompletePending? then m
    else
      match Advance(Point(m.stage, m.clicks), LetterOf(sample))
      case Some(p) => Machine(p.stage, p.clicks, m.quadratureErrors)
      case None => Fresh(sample)
  }

  /** The unlock is raised by the sample that completes the third click. */
  predicate UnlocksOn(m: Machine, sample: Sample) {
    !m.stage.CompletePending? && Next(m, sample).stage.CompletePending?
  }

  predicate RestartsOn(m: Machine, sample: Sample) {
    && !m.stage.Inactive? && !sample.estopPressed
    && (m.quadratureErrors.None? || !Clean(sample, m.quadratureErrors.value)
        || (Midway(Point(m.stage, m.clicks)) && Advance(Point(m.stage, m.clicks), LetterOf(sample)).None?))
  }

  function Report(m: Machine, sample: Sample): Update {
    Update(Next(m, sample).stage, RestartsOn(m, sample), UnlocksOn(m, sample))
  }

  // ------------------------------------------------------------- the language

  /** One stretch of a gesture: exactly one, one or more, or any number of
      samples, each showing one of the given letters. */
  datatype Segment = One(of: set<Letter>) | Many(of: set<Letter>) | Any(of: set<Letter>)

  datatype Pattern = End | Then(segment: Segment, rest: Pattern)

  /** `w` is a concatenation of one word per segment, in order: the usual reading
      of a regular expression a, a+ and a*, trying every way to divide `w`. */
  predicate Matches(pattern: Pattern, w: seq<Letter>)
    decreases |w|, pattern
  {
    match pattern
    case End => w == []
    case Then(One(a), rest) => w != [] && w[0] in a && Matches(rest, w[1..])
    case Then(Many(a), rest) => w != [] && w[0] in a && Matches(Then(Any(a), rest), w[1..])
    case Then(Any(a), rest) => Matches(rest, w) || (w != [] && w[0] in a && Matches(pattern, w[1..]))
  }

  // The gesture, from its last stretch back to its first: the selector rests on
  // X x10, on X x1, then off; the wheel turns clockwise, then counterclockwise;
  // the button is clicked three times, complete at the last release.
  const THIRD_RELEASE := Then(One({LOff}), End)
  const THIRD_PRESS := Then(Many({LHeld}), THIRD_RELEASE)
  const SECOND_RELEASE := Then(Many({LOff}), THIRD_PRESS)
  const SECOND_PRESS := Then(Many({LHeld}), SECOND_RELEASE)
  const FIRST_RELEASE := Then(Many({LOff}), SECOND_PRESS)
  const FIRST_PRESS := Then(Many({LHeld}), FIRST_RELEASE)
  const AFTER_CCW := Then(Any({LOff, LCcw}), FIRST_PRESS)
  const CCW := Then(One({LCcw}), AFTER_CCW)
  const AFTER_CW := Then(Any({LOff, LCw}), CCW)
  const CW := Then(One({LCw}), AFTER_CW)
  const OFF_REST := Then(Many({LOff}), CW)
  const X1_REST := Then(Many({LX1}), OFF_REST)
  const GESTURE := Then(Many({LX10}), X1_REST)

  /** What is still to come when the machine stands at `p`. */
  function Residual(p: Point): Pattern {
    match p.stage
    case WaitX1 => Then(Any({LX10}), X1_REST)
    case WaitOff => Then(Any({LX1}), OFF_REST)
    case WaitClockwise => Then(Any({LOff}), CW)
    case WaitCounterclockwise => AFTER_CW
    case WaitButtonPress =>
      if p.clicks == 0 then AFTER_CCW
      else if p.clicks == 1 then Then(Any({LOff}), SECOND_PRESS)
      else Then(Any({LOff}), THIRD_PRESS)
    case WaitButtonRelease =>
      if p.clicks == 0 then Then(Any({LHeld}), FIRST_RELEASE)
      else if p.clicks == 1 then Then(Any({LHeld}), SECOND_RELEASE)
      else Then(Any({LHeld}), THIRD_RELEASE)
    case _ => End
  }

  // ------------------------------------------------------ derivatives of words

  /** After `Any(a)`, a disjoint `Many(b)` or `One(b)` is entered by its first
      letter and by nothing else. */
  lemma LoopThenMany(a: set<Letter>, b: set<Letter>, rest: Pattern, w: seq<Letter>)
    requires a !! b
    ensures var loop := Then(Any(a), Then(Many(b), rest));
            Matches(loop, w) <==>
            w != [] && if w[0] in a then Matches(loop, w[1..])
                       else w[0] in b && Matches(Then(Any(b), rest), w[1..])
  {
  }

  lemma LoopThenOne(a: set<Letter>, b: set<Letter>, rest: Pattern, w: seq<Letter>)
    requires a !! b
    ensures var loop := Then(Any(a), Then(One(b), rest));
            Matches(loop, w) <==>
            w != [] && if w[0] in a then Matches(loop, w[1..])
                       else w[0] in b && Matches(rest, w[1..])
  {
  }

  /** One letter: the language that remains is the one of the next point. */
  predicate Follows(p: Point, w: seq<Letter>) {
    Matches(Residual(p), w) <==>
    w != [] && Advance(p, w[0]).Some? && Matches(Residual(Advance(p, w[0]).value), w[1..])
  }

  lemma ResidualDerivative(p: Point, w: seq<Letter>)
    requires Midway(p)
    ensures Follows(p, w)
  {
    if p.stage.WaitX1? || p.stage.WaitOff? {
      ResidualOfRest(p, w);
    } else if p.stage.WaitClockwise? {
      LoopThenOne({LOff}, {LCw}, AFTER_CW, w);
    } else if p.stage.WaitCounterclockwise? {
      LoopThenOne({LOff, LCw}, {LCcw}, AFTER_CCW, w);
    } else if p.stage.WaitButtonPress? {
      ResidualOfPress(p, w);
    } else {
      ResidualOfRelease(p, w);
    }
  }

  lemma ResidualOfRest(p: Point, w: seq<Letter>)
    requires Midway(p) && (p.stage.WaitX1? || p.stage.WaitOff?)
    ensures Follows(p, w)
  {
    if p.stage.WaitX1? {
      LoopThenMany({LX10}, {LX1}, OFF_REST, w);
    } else {
      LoopThenMany({LX1}, {LOff}, CW, w);
    }
  }

  lemma ResidualOfPress(p: Point, w: seq<Letter>)
    requires p.stage.WaitButtonPress? && p.clicks <= 2
    ensures Follows(p, w)
  {
    if p.clicks == 0 {
      LoopThenMany({LOff, LCcw}, {LHeld}, FIRST_RELEASE, w);
    } else if p.clicks == 1 {
      LoopThenMany({LOff}, {LHeld}, SECOND_RELEASE, w);
    } else {
      LoopThenMany({LOff}, {LHeld}, THIRD_RELEASE, w);
    }
  }

  lemma ResidualOfRelease(p: Point, w: seq<Letter>)
    requires p.stage.WaitButtonRelease? && p.clicks <= 2
    ensures Follows(p, w)
  {
    if p.clicks == 0 {
      LoopThenMany({LHeld}, {LOff}, SECOND_PRESS, w);
    } else if p.clicks == 1 {
      LoopThenMany({LHeld}, {LOff}, THIRD_PRESS, w);
    } else {
      ResidualOfLastRelease(p, w);
    }
  }

  lemma ResidualOfLastRelease(p: Point, w: seq<Letter>)
    requires p == Point(WaitButtonRelease, 2)
    ensures Follows(p, w)
  {
    LoopThenOne({LHeld}, {LOff}, End, w);
  }

  // -------------------------------------------------------- runs of the points

  /** Progress along a whole word; the gesture is over once complete. */
  function Walk(p: Point, w: seq<Letter>): Option<Point>
    decreases |w|
  {
    if w == [] then Some(p)
    else
      match Advance(p, w[0])
      case None => None
      case Some(q) => Walk(q, w[1..])
  }

  lemma AdvanceStaysMidway(p: Point, l: Letter)
    requires Midway(p) && Advance(p, l).Some?
    ensures var q := Advance(p, l).value; Midway(q) || q == DONE
  {
  }

  const DONE := Point(CompletePending, 3)

  lemma {:induction false} WalkRecognisesResidual(p: Point, w: seq<Letter>)
    requires Midway(p) || p == DONE
    ensures Walk(p, w) == Some(DONE) <==> Matches(Residual(p), w)
    decreases |w|
  {
    if p == DONE {
      if w != [] { assert Advance(p, w[0]).None?; }
    } else {
      ResidualDerivative(p, w);
      if w != [] && Advance(p, w[0]).Some? {
        AdvanceStaysMidway(p, w[0]);
        WalkRecognisesResidual(Advance(p, w[0]).value, w[1..]);
      }
    }
  }

  lemma {:induction false} WalkSnoc(p: Point, w: seq<Letter>, l: Letter)
    ensures Walk(p, w + [l]) == match Walk(p, w) case None => None case Some(q) => Advance(q, l)
    decreases |w|
  {
    if w == [] {
      assert (w + [l])[1..] == [];
    } else {
      assert (w + [l])[1..] == w[1..] + [l];
      if Advance(p, w[0]).Some? { WalkSnoc(Advance(p, w[0]).value, w[1..], l); }
    }
  }

  /** A whole gesture, walked from before its first letter. */
  function WalkGesture(w: seq<Letter>): Option<Point> {
    if w == [] || w[0] != LX10 then None else Walk(Point(WaitX1, 0), w[1..])
  }

  lemma WalkRecognisesGesture(w: seq<Letter>)
    ensures WalkGesture(w) == Some(DONE) <==> Matches(GESTURE, w)
  {
    if w != [] { WalkRecognisesResidual(Point(WaitX1, 0), w[1..]); }
  }

  lemma WalkGestureSnoc(w: seq<Letter>, l: Letter)
    requires w != []
    ensures WalkGesture(w + [l]) == match WalkGesture(w) case None => None case Some(q) => Advance(q, l)
  {
    assert (w + [l])[1..] == w[1..] + [l];
    WalkSnoc(Point(WaitX1, 0), w[1..], l);
  }

  // -------------------------------------------------------- runs of the machine

  function Run(m: Machine, samples: seq<Sample>): Machine {
    if samples == [] then m
    else Next(Run(m, samples[..|samples| - 1]), samples[|samples| - 1])
  }

  /** The update answering the last sample of the stream requests the unlock. */
  predicate UnlocksAtEnd(m: Machine, samples: seq<Sample>)
    requires samples != []
  {
    UnlocksOn(Run(m, samples[..|samples| - 1]), samples[|samples| - 1])
  }

  function Letters(samples: seq<Sample>): (w: seq<Letter>)
    ensures |w| == |samples|
    ensures forall i | 0 <= i < |w| :: w[i] == LetterOf(samples[i])
  {
    if samples == [] then []
    else Letters(samples[..|samples| - 1]) + [LetterOf(samples[|samples| - 1])]
  }

  predicate AllClean(samples: seq<Sample>, q: u32) {
    forall i | 0 <= i < |samples| :: Clean(samples[i], q)
  }

  /** An uninterrupted gesture: no E-stop, one counter value, in-range detents,
      and a word of the gesture language. */
  predicate Gesture(samples: seq<Sample>) {
    samples != [] && AllClean(samples, samples[0].quadratureErrors) && Matches(GESTURE, Letters(samples))
  }

  predicate ReadyFor(m: Machine, q: u32) {
    (m.stage.WaitEstopRelease? || m.stage.WaitX10?) && m.quadratureErrors == Some(q)
  }

  lemma {:induction false} RunIsValid(m: Machine, samples: seq<Sample>)
    requires m.Valid()
    ensures Run(m, samples).Valid()
  {
    if samples != [] { RunIsValid(m, samples[..|samples| - 1]); }
  }

  lemma {:induction false} RunConcat(m: Machine, a: seq<Sample>, b: seq<Sample>)
    ensures Run(m, a + b) == Run(Run(m, a), b)
    decreases |b|
  {
    if b == [] {
      assert a + b == a;
    } else {
      var n := |b| - 1;
      assert (a + b)[..|a + b| - 1] == a + b[..n];
      RunConcat(m, a, b[..n]);
    }
  }

  /** The samples are one counter value's gesture as far as point `p`. */
  predicate Walked(samples: seq<Sample>, p: Point) {
    && samples != []
    && AllClean(samples, samples[0].quadratureErrors)
    && WalkGesture(Letters(samples)) == Some(p)
  }

  lemma GestureIsWalked(samples: seq<Sample>)
    ensures Gesture(samples) <==> Walked(samples, DONE)
  {
    WalkRecognisesGesture(Letters(samples));
  }

  lemma WalkedSnoc(samples: seq<Sample>, p: Point)
    requires |samples| >= 2
    ensures var n := |samples| - 1; var front := samples[..n];
            Walked(samples, p) <==>
            && WalkGesture(Letters(front)).Some?
            && Walked(front, WalkGesture(Letters(front)).value)
            && Clean(samples[n], samples[0].quadratureErrors)
            && Advance(WalkGesture(Letters(front)).value, LetterOf(samples[n])) == Some(p)
  {
    var n := |samples| - 1;
    assert samples == samples[..n] + [samples[n]];
    WalkGestureSnoc(Letters(samples[..n]), LetterOf(samples[n]));
  }

  lemma WalkedOne(sample: Sample, p: Point)
    ensures Walked([sample], p) <==>
            Clean(sample, sample.quadratureErrors) && LetterOf(sample) == LX10 && p == Point(WaitX1, 0)
  {
    assert Letters([sample]) == [LetterOf(sample)];
    assert Letters([sample])[1..] == [];
  }

  function PointOf(m: Machine): Point {
    Point(m.stage, m.clicks)
  }

  /** How a machine comes to stand midway, or to unlock: one letter further, or
      by the first letter of a gesture. */
  lemma StepShape(u: Machine, last: Sample)
    requires u.Valid()
    requires var t := Next(u, last); Midway(PointOf(t)) || UnlocksOn(u, last)
    ensures var t := Next(u, last);
            && t.quadratureErrors == u.quadratureErrors == Some(last.quadratureErrors)
            && Clean(last, last.quadratureErrors)
            && if Midway(PointOf(u)) then Advance(PointOf(u), LetterOf(last)) == Some(PointOf(t))
               else ReadyFor(u, last.quadratureErrors) && LetterOf(last) == LX10
                    && PointOf(t) == Point(WaitX1, 0)
  {
  }

  lemma StepOnward(u: Machine, last: Sample)
    requires u.Valid() && u.quadratureErrors == Some(last.quadratureErrors)
    requires Clean(last, last.quadratureErrors)
    ensures Midway(PointOf(u)) && Advance(PointOf(u), LetterOf(last)).Some? ==>
              var p := Advance(PointOf(u), LetterOf(last)).value;
              Next(u, last) == Machine(p.stage, p.clicks, u.quadratureErrors)
    ensures ReadyFor(u, last.quadratureErrors) && LetterOf(last) == LX10 ==>
              Next(u, last) == Machine(WaitX1, 0, u.quadratureErrors)
  {
  }

  predicate BeganAt(m: Machine, samples: seq<Sample>, i: nat, p: Point) {
    && i < |samples|
    && ReadyFor(Run(m, samples[..i]), samples[i].quadratureErrors)
    && Walked(samples[i..], p)
  }

  lemma ExtendBegan(m: Machine, samples: seq<Sample>, i: nat, p: Point, next: Point)
    requires samples != [] && i < |samples| - 1
    requires BeganAt(m, samples[..|samples| - 1], i, p)
    requires Clean(samples[|samples| - 1], samples[i].quadratureErrors)
    requires Advance(p, LetterOf(samples[|samples| - 1])) == Some(next)
    ensures BeganAt(m, samples, i, next)
  {
    var n := |samples| - 1;
    assert samples[..n][..i] == samples[..i];
    assert samples[i..][..n - i] == samples[..n][i..];
    WalkedSnoc(samples[i..], next);
  }

  /** Soundness: wherever the machine stands midway, or unlocks, it stands there
      because of a gesture begun from a ready state. */
  lemma {:induction false} ProgressHasAnOrigin(m: Machine, samples: seq<Sample>)
    requires m.Valid() && (m.stage.Inactive? || m.stage.WaitEstopRelease? || m.stage.WaitX10?)
    requires Midway(PointOf(Run(m, samples))) || (samples != [] && UnlocksAtEnd(m, samples))
    ensures exists i: nat :: BeganAt(m, samples, i, PointOf(Run(m, samples)))
                             && Run(m, samples).quadratureErrors == Some(samples[i].quadratureErrors)
  {
    assert samples != [];
    var n := |samples| - 1;
    var front, last := samples[..n], samples[n];
    var u, t := Run(m, front), Run(m, samples);
    RunIsValid(m, front);
    StepShape(u, last);
    if Midway(PointOf(u)) {
      ProgressHasAnOrigin(m, front);
      var i: nat :| BeganAt(m, front, i, PointOf(u)) && u.quadratureErrors == Some(front[i].quadratureErrors);
      ExtendBegan(m, samples, i, PointOf(u), PointOf(t));
    } else {
      assert samples[n..] == [last];
      WalkedOne(last, Point(WaitX1, 0));
      assert BeganAt(m, samples, n, PointOf(t));
    }
  }

  /** Completeness: a gesture begun from a ready state leads through its points. */
  lemma {:induction false} GestureIsFollowed(m: Machine, samples: seq<Sample>, p: Point)
    requires m.Valid() && Walked(samples, p) && ReadyFor(m, samples[0].quadratureErrors)
    ensures Midway(p) || p == DONE
    ensures Run(m, samples) == Machine(p.stage, p.clicks, Some(samples[0].quadratureErrors))
    ensures p == DONE ==> UnlocksAtEnd(m, samples)
  {
    var n := |samples| - 1;
    var front, last := samples[..n], samples[n];
    if n == 0 {
      assert samples == [last] && front == [];
      WalkedOne(last, p);
      StepOnward(m, last);
    } else {
      WalkedSnoc(samples, p);
      var was := WalkGesture(Letters(front)).value;
      GestureIsFollowed(m, front, was);
      assert was != DONE;
      AdvanceStaysMidway(was, LetterOf(last));
      StepOnward(Run(m, front), last);
    }
  }

  /** The machine is exactly its language: the unlock is requested at a sample
      iff a gesture ends there that began in a ready state with its own counter
      value as the baseline. */
  lemma UnlockExactly(m: Machine, samples: seq<Sample>)
    requires m.Valid() && (m.stage.Inactive? || m.stage.WaitEstopRelease? || m.stage.WaitX10?)
    requires samples != []
    ensures UnlocksAtEnd(m, samples) <==> exists i: nat :: GestureFrom(m, samples, i)
  {
    if UnlocksAtEnd(m, samples) {
      ProgressHasAnOrigin(m, samples);
      RunIsValid(m, samples);
      var i: nat :| BeganAt(m, samples, i, DONE);
      GestureIsWalked(samples[i..]);
      assert GestureFrom(m, samples, i);
    }
    forall i: nat | GestureFrom(m, samples, i)
      ensures UnlocksAtEnd(m, samples)
    {
      GestureFromUnlocks(m, samples, i);
    }
  }

  predicate GestureFrom(m: Machine, samples: seq<Sample>, i: nat) {
    && i < |samples|
    && ReadyFor(Run(m, samples[..i]), samples[i].quadratureErrors)
    && Gesture(samples[i..])
  }

  lemma GestureFromUnlocks(m: Machine, samples: seq<Sample>, i: nat)
    requires m.Valid() && GestureFrom(m, samples, i)
    ensures UnlocksAtEnd(m, samples)
  {
    var a, b := samples[..i], samples[i..];
    assert samples == a + b && b[0] == samples[i];
    RunIsValid(m, a);
    GestureIsWalked(b);
    hide Run, UnlocksAtEnd, Gesture;
    GestureIsFollowed(Run(m, a), b, DONE);
    UnlocksConcat(m, a, b);
  }

  lemma UnlocksConcat(m: Machine, a: seq<Sample>, b: seq<Sample>)
    requires b != []
    ensures UnlocksAtEnd(m, a + b) <==> UnlocksAtEnd(Run(m, a), b)
  {
    hide Run, UnlocksOn;
    var n := |b| - 1;
    assert (a + b)[..|a + b| - 1] == a + b[..n];
    assert (a + b)[|a + b| - 1] == b[n];
    RunConcat(m, a, b[..n]);
  }

  lemma RunOne(m: Machine, sample: Sample)
    ensures Run(m, [sample]) == Next(m, sample)
  {
    assert [sample][..0] == [];
  }

  /** A gesture whose x10 rest lasts two samples unlocks from every state that
      is active and not already complete, whatever was going on before. */
  lemma DoubledRestAlwaysUnlocks(m: Machine, samples: seq<Sample>)
    requires m.Valid() && !m.stage.Inactive? && !m.stage.CompletePending?
    requires Gesture(samples) && |samples| >= 2 && LetterOf(samples[0]) == LetterOf(samples[1]) == LX10
    ensures UnlocksAtEnd(m, samples)
  {
    var ready := Machine(WaitX10, 0, Some(samples[0].quadratureErrors));
    var first, rest := samples[0], samples[1..];
    RestIsWalked(samples);
    GestureIsFollowed(ready, rest, DONE);
    RunOne(m, first);
    assert samples == [first] + rest;
    UnlocksConcat(m, [first], rest);
    FirstRestSample(m, first);
    if Next(m, first) != ready {
      // The machine is one letter ahead of a ready one; the second rest sample
      // brings both to the same state.
      var second, tail := rest[0], rest[1..];
      LongWalk(rest);
      assert rest == [second] + tail;
      RunOne(Next(m, first), second);
      RunOne(ready, second);
      StepOnward(Next(m, first), second);
      StepOnward(ready, second);
      UnlocksConcat(Next(m, first), [second], tail);
      UnlocksConcat(ready, [second], tail);
    }
  }

  lemma FirstRestSample(m: Machine, s: Sample)
    requires m.Valid() && !m.stage.Inactive? && !m.stage.CompletePending?
    requires Clean(s, s.quadratureErrors) && LetterOf(s) == LX10
    ensures Next(m, s) == Machine(WaitX10, 0, Some(s.quadratureErrors))
            || Next(m, s) == Machine(WaitX1, 0, Some(s.quadratureErrors))
  {
  }

  lemma LongWalk(samples: seq<Sample>)
    requires Walked(samples, DONE)
    ensures |samples| >= 2
  {
    var w := Letters(samples);
    assert w[1..] != [];
  }

  lemma RestIsWalked(samples: seq<Sample>)
    requires Gesture(samples) && |samples| >= 2 && LetterOf(samples[1]) == LX10
    ensures Walked(samples[1..], DONE)
    ensures samples[1].quadratureErrors == samples[0].quadratureErrors
    ensures forall s | s in samples[..2] :: Clean(s, s.quadratureErrors)
  {
    GestureIsWalked(samples);
    var w, v := Letters(samples), Letters(samples[1..]);
    assert w[1..] == v;
    assert Walk(Point(WaitX1, 0), v) == Walk(Point(WaitX1, 0), v[1..]);
    assert forall i | 0 <= i < |samples[1..]| :: samples[1..][i] == samples[i + 1];
  }

  /** The letters, by the switches and the wheel. */
  lemma LettersExactly(s: Sample)
    ensures var rest := s.latestDetent == 0;
            var released := s.axis.X? && s.selectorValid && !s.deadmanHeld;
            var off := s.axis.AxisOff? && !s.selectorValid;
            var dark := off && s.multiplier.MultiplierOff? && !s.deadmanHeld;
            && (LetterOf(s) == LX10 <==> rest && released && s.multiplier.X10?)
            && (LetterOf(s) == LX1 <==> rest && released && s.multiplier.X1?)
            && (LetterOf(s) == LHeld <==> rest && off && s.multiplier.X1? && s.deadmanHeld)
            && (LetterOf(s) == LOff <==> rest && dark)
            && (LetterOf(s) == LCw <==> s.latestDetent == 1 && dark)
            && (LetterOf(s) == LCcw <==> s.latestDetent == -1 && dark)
    ensures forall q: u32 :: Clean(s, q) <==>
              !s.estopPressed && s.quadratureErrors == q && s.latestDetent in {-1, 0, 1}
  {
  }

  /** A restart is reported exactly when an active machine, with the E-stop released, sees
      another counter or a detent beyond one step, or has a gesture broken off. */
  lemma RestartsExactly(m: Machine, s: Sample)
    requires m.Valid()
    ensures Report(m, s).stage == Next(m, s).stage
    ensures Report(m, s).restarted <==>
            && !m.stage.Inactive? && !s.estopPressed
            && (|| m.quadratureErrors != Some(s.quadratureErrors)
               || s.latestDetent !in {-1, 0, 1}
               || (m.stage !in {WaitEstopRelease, WaitX10, CompletePending}
                   && Next(m, s) == Machine(WaitX10, 0, Some(s.quadratureErrors))))
  {
  }

  /** What each sample does to a machine that is not midway: an inactive one stays so, a
      pressed E-stop always starts over, and a complete one stays complete exactly while
      counter and wheel are in order. */
  lemma RestingStagesExactly(m: Machine, s: Sample)
    requires m.Valid()
    ensures m.stage.Inactive? ==> Next(m, s) == m && Report(m, s) == Update(Inactive, false, false)
    ensures !m.stage.Inactive? && s.estopPressed ==>
              && Next(m, s) == Machine(WaitEstopRelease, 0, Some(s.quadratureErrors))
              && Report(m, s) == Update(WaitEstopRelease, false, false)
    ensures m.stage.CompletePending? && !s.estopPressed ==>
              var kept := m.quadratureErrors == Some(s.quadratureErrors) && s.latestDetent in {-1, 0, 1};
              && Next(m, s) == (if kept then m else Machine(WaitX10, 0, Some(s.quadratureErrors)))
              && Report(m, s) == Update(if kept then CompletePending else WaitX10, !kept, false)
  {
  }

  /** The unlock is raised once: over any further samples without fault or E-stop the
      machine stays complete and says nothing more. */
  lemma {:induction false} CompletionHolds(m: Machine, samples: seq<Sample>)
    requires m.Valid() && m.stage.CompletePending?
    requires forall s <- samples :: !s.estopPressed && m.quadratureErrors == Some(s.quadratureErrors)
                                    && s.latestDetent in {-1, 0, 1}
    ensures Run(m, samples) == m
    ensures samples != [] ==> !UnlocksAtEnd(m, samples)
  {
    if samples != [] {
      var n := |samples| - 1;
      var front, last := samples[..n], samples[n];
      assert last in samples && forall s <- front :: s in samples;
      CompletionHolds(m, front);
      RestingStagesExactly(m, last);
    }
  }
}
