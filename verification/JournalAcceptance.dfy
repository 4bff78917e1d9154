/** Exactly which files the two AXIS journal readers take whole, and what they then
    deliver, stated without the readers' steps. */
module JournalAcceptance {
  import opened Words
  import opened JournalReader

  /** The routes that the recovery rows declare, by code. */
  function RouteTable<K>(p: Parsers<K>, rows: seq<Line>): map<nat, Route> {
    if rows == [] then map[]
    else
      var n := |rows| - 1;
      match p.recovery(rows[n])
      case None => RouteTable(p, rows[..n])
      case Some(route) => RouteTable(p, rows[..n])[route.code := route]
  }

  /** The readers' test for ASCII: no byte with its top bit set. */
  lemma AsciiExactly(line: Line)
    ensures IsAsciiLine(line) <==> forall i | 0 <= i < |line| :: line[i] <= 0x7f
  {
    if !IsAsciiLine(line) {
      var b :| b in line && !(b < 128);
      var i :| 0 <= i < |line| && line[i] == b;
    } else {
      forall i | 0 <= i < |line| ensures line[i] <= 0x7f {
        assert line[i] in line && line[i] < 128;
      }
    }
  }

  predicate IsRoute<K>(p: Parsers<K>, row: Line) {
    IsAsciiLine(row) && Sealed(row) && p.recovery(row).Some?
  }

  /** Two rows declare neither the same code nor the same identity. */
  predicate Apart<K>(p: Parsers<K>, a: Line, b: Line) {
    && p.recovery(a).Some? && p.recovery(b).Some?
    && p.recovery(a).value.code != p.recovery(b).value.code
    && p.recovery(a).value.identity != p.recovery(b).value.identity
  }

  predicate RoutesAgree<K>(p: Parsers<K>, rows: seq<Line>) {
    && (forall i | 0 <= i < |rows| :: IsRoute(p, rows[i]))
    && (forall i, j | 0 <= i < j < |rows| :: Apart(p, rows[i], rows[j]))
  }

  /** Neither the code nor the identity of `route` is in the table. */
  predicate IsNew(routes: map<nat, Route>, route: Route) {
    route.code !in routes && forall code <- routes :: routes[code].identity != route.identity
  }

  predicate NewTo<K>(p: Parsers<K>, row: Line, route: Route) {
    && p.recovery(row).Some?
    && p.recovery(row).value.code != route.code && p.recovery(row).value.identity != route.identity
  }

  /** Rows agree exactly if the rows before do, and the last is new to each of them. */
  lemma FrontAgrees<K>(p: Parsers<K>, front: seq<Line>, last: Line)
    ensures RoutesAgree(p, front + [last]) <==>
            && RoutesAgree(p, front) && IsRoute(p, last)
            && forall i | 0 <= i < |front| :: NewTo(p, front[i], p.recovery(last).value)
  {
    var rows, n := front + [last], |front|;
    assert rows[n] == last && forall i | 0 <= i < n :: rows[i] == front[i];
    hide IsRoute;
    if RoutesAgree(p, rows) {
      forall i | 0 <= i < n ensures IsRoute(p, front[i]) && NewTo(p, front[i], p.recovery(last).value) {
        assert Apart(p, rows[i], rows[n]) && IsRoute(p, rows[i]);
      }
      forall i, j | 0 <= i < j < n ensures Apart(p, front[i], front[j]) {
        assert Apart(p, rows[i], rows[j]);
      }
    }
  }

  function RecoveryRows(lines: seq<Line>): seq<Line> {
    if |lines| <= 1 then [] else if |lines| <= 10 then lines[1..] else lines[1..10]
  }

  function EventRows(lines: seq<Line>): seq<Line> {
    if |lines| <= 10 then [] else lines[10..]
  }

  /** The events that the rows say, if every row says one. */
  function EventsOf<K>(p: Parsers<K>, routes: map<nat, Route>, rows: seq<Line>): Option<seq<DiagnosticEvent<K>>> {
    if rows == [] then Some([])
    else
      var n := |rows| - 1;
      var front, last := EventsOf(p, routes, rows[..n]), p.event(rows[n], routes);
      if front.None? || last.None? || !IsAsciiLine(rows[n]) || !Sealed(rows[n]) then None
      else Some(front.value + [last.value])
  }

  /** A valid header; recovery rows that agree, and when there are nine, of exactly the
      nine codes; then rows whose events number 1, 2, 3 and alternate for each key. */
  ghost predicate Readable<K(!new)>(p: Parsers<K>, lines: seq<Line>) {
    var routes := RouteTable(p, RecoveryRows(lines));
    && (lines != [] ==> IsAsciiLine(lines[0]) && p.header(lines[0]))
    && RoutesAgree(p, RecoveryRows(lines))
    && (|lines| >= 10 ==> routes.Keys == {1, 2, 3, 4, 5, 6, 7, 8, 9})
    && EventsOf(p, routes, EventRows(lines)).Some?
    && WellFormed(EventsOf(p, routes, EventRows(lines)).value)
  }

  lemma NewAfterAdding(routes: map<nat, Route>, added: Route, route: Route)
    requires added.code !in routes
    ensures IsNew(routes[added.code := added], route) <==>
            IsNew(routes, route) && added.code != route.code && added.identity != route.identity
    ensures |routes[added.code := added]| == |routes| + 1
  {
    var all := routes[added.code := added];
    assert all.Keys == routes.Keys + {added.code};
    if IsNew(all, route) {
      assert added.code in all && all[added.code] == added;
      forall code <- routes ensures routes[code].identity != route.identity {
        assert code in all && all[code] == routes[code];
      }
    }
  }

  /** The table holds exactly what agreeing rows declare. */
  lemma {:induction false} TableIsExact<K>(p: Parsers<K>, rows: seq<Line>, route: Route)
    requires RoutesAgree(p, rows)
    ensures |RouteTable(p, rows)| == |rows|
    ensures IsNew(RouteTable(p, rows), route) <==> forall i | 0 <= i < |rows| :: NewTo(p, rows[i], route)
  {
    if rows != [] {
      var n := |rows| - 1;
      var front, last := rows[..n], rows[n];
      FrontAgrees(p, front, last);
      var added := p.recovery(last).value;
      TableIsExact(p, front, added);
      TableIsExact(p, front, route);
      hide IsNew;
      assert forall i | 0 <= i < n :: front[i] == rows[i];
      assert added.code !in RouteTable(p, front) by { assert IsNew(RouteTable(p, front), added); }
      NewAfterAdding(RouteTable(p, front), added, route);
    }
  }

  // ---------------------------------------------------------- one line at a time

  /** What a reader knows that has taken all of `lines`. */
  ghost predicate Holds<K(!new)>(p: Parsers<K>, lines: seq<Line>, c: Diagnostics<K>, events: seq<DiagnosticEvent<K>>) {
    && c.headerSeen == (lines != [])
    && c.routes == RouteTable(p, RecoveryRows(lines))
    && EventsOf(p, c.routes, EventRows(lines)) == Some(events)
    && IsFold(c, events)
  }

  lemma RowsSnoc(lines: seq<Line>, line: Line)
    requires lines != []
    ensures if |lines| < 10 then
              && RecoveryRows(lines + [line]) == RecoveryRows(lines) + [line]
              && EventRows(lines + [line]) == EventRows(lines) == [] && |RecoveryRows(lines)| == |lines| - 1
            else
              && RecoveryRows(lines + [line]) == RecoveryRows(lines) && |RecoveryRows(lines)| == 9
              && EventRows(lines + [line]) == EventRows(lines) + [line]
  {
  }

  lemma EventsSnoc<K>(p: Parsers<K>, routes: map<nat, Route>, rows: seq<Line>, row: Line)
    ensures var front, last := EventsOf(p, routes, rows), p.event(row, routes);
            EventsOf(p, routes, rows + [row]) ==
            if front.None? || last.None? || !IsAsciiLine(row) || !Sealed(row) then None
            else Some(front.value + [last.value])
  {
    assert (rows + [row])[..|rows|] == rows;
  }

  lemma WellFormedSnoc<K>(events: seq<DiagnosticEvent<K>>, event: DiagnosticEvent<K>)
    ensures WellFormed(events + [event]) <==>
            WellFormed(events) && event.sequence == |events| + 1 && event.asserts == !Asserted(events, event.key)
  {
    var all, n := events + [event], |events|;
    assert all[..n] == events && all[n] == event;
    forall i | 0 <= i < n ensures all[..i] == events[..i] && all[i] == events[i] {
    }
  }

  lemma HeaderLine<K(!new)>(p: Parsers<K>, line: Line)
    ensures var taken := DiagnosticStep(p, NewDiagnostics(), line);
            && (taken.Take? <==> Readable(p, [line]))
            && (taken.Take? ==> taken.event.None? && Holds(p, [line], taken.core, []))
  {
  }

  /** A sealed recovery row is taken exactly if it is new, and the ninth only if the
      nine codes are the closed set. */
  lemma RouteIsTaken<K>(p: Parsers<K>, c: Diagnostics<K>, line: Line)
    requires |c.routes| < RECOVERY_COUNT
    ensures var taken := RouteStep(p, c, line);
            && (taken.Take? <==>
                  && Sealed(line) && p.recovery(line).Some? && IsNew(c.routes, p.recovery(line).value)
                  && (|c.routes| == 8 ==>
                        c.routes[p.recovery(line).value.code := p.recovery(line).value].Keys
                        == {1, 2, 3, 4, 5, 6, 7, 8, 9}))
            && (taken.Take? ==>
                  && taken.event.None?
                  && taken.core == c.(routes := c.routes[p.recovery(line).value.code := p.recovery(line).value]))
  {
    hide Sealed;
    if p.recovery(line).Some? {
      var route := p.recovery(line).value;
      if route.code !in c.routes {
        NewAfterAdding(c.routes, route, route);
      }
      assert IsNew(c.routes, route) <==>
             route.code !in c.routes && !(exists code <- c.routes :: c.routes[code].identity == route.identity);
    }
  }

  lemma ReadableRoutes<K(!new)>(p: Parsers<K>, lines: seq<Line>)
    requires 1 <= |lines| <= 10
    ensures EventRows(lines) == []
    ensures Readable(p, lines) <==>
            && IsAsciiLine(lines[0]) && p.header(lines[0]) && RoutesAgree(p, RecoveryRows(lines))
            && (|lines| == 10 ==> RouteTable(p, RecoveryRows(lines)).Keys == {1, 2, 3, 4, 5, 6, 7, 8, 9})
  {
    hide RoutesAgree, RouteTable;
  }

  lemma TableSnoc<K>(p: Parsers<K>, rows: seq<Line>, row: Line)
    requires p.recovery(row).Some?
    ensures RouteTable(p, rows + [row]) == RouteTable(p, rows)[p.recovery(row).value.code := p.recovery(row).value]
  {
    assert (rows + [row])[..|rows|] == rows;
  }

  lemma RouteIsReadable<K(!new)>(p: Parsers<K>, lines: seq<Line>, c: Diagnostics<K>, line: Line)
    requires 1 <= |lines| < 10 && Readable(p, lines) && c.routes == RouteTable(p, RecoveryRows(lines))
    ensures |c.routes| == |lines| - 1
    ensures IsAsciiLine(line) && RouteStep(p, c, line).Take? <==> Readable(p, lines + [line])
  {
    var rows, all := RecoveryRows(lines), lines + [line];
    RowsSnoc(lines, line);
    FrontAgrees(p, rows, line);
    ReadableRoutes(p, lines);
    ReadableRoutes(p, all);
    assert all[0] == lines[0] && |rows| == |lines| - 1;
    hide RecoveryRows, EventRows, Readable, RoutesAgree;
    TableIsExact(p, rows, if p.recovery(line).Some? then p.recovery(line).value else Route(0, ""));
    RouteIsTaken(p, c, line);
    hide RouteStep, IsNew, NewTo, Sealed;
    if p.recovery(line).Some? {
      TableSnoc(p, rows, line);
      hide RouteTable;
    }
  }

  lemma RouteLine<K(!new)>(p: Parsers<K>, lines: seq<Line>, c: Diagnostics<K>, events: seq<DiagnosticEvent<K>>,
                           line: Line)
    requires 1 <= |lines| < 10 && Readable(p, lines) && Holds(p, lines, c, events)
    ensures var taken := DiagnosticStep(p, c, line);
            && (taken.Take? <==> Readable(p, lines + [line]))
            && (taken.Take? ==> taken.event.None? && Holds(p, lines + [line], taken.core, events))
  {
    hide Readable, IsFold, Sealed;
    RouteIsReadable(p, lines, c, line);
    RouteIsTaken(p, c, line);
    RowsSnoc(lines, line);
    hide RouteStep, RecoveryRows, EventRows, IsNew;
    if p.recovery(line).Some? {
      var route := p.recovery(line).value;
      TableSnoc(p, RecoveryRows(lines), line);
      hide RouteTable;
      NothingDependsOnRoutes(c, events, c.routes[route.code := route]);
      NoEvents(p, c.routes);
      NoEvents(p, c.routes[route.code := route]);
      hide EventsOf;
    }
  }

  lemma NothingDependsOnRoutes<K(!new)>(c: Diagnostics<K>, events: seq<DiagnosticEvent<K>>, routes: map<nat, Route>)
    ensures IsFold(c.(routes := routes), events) <==> IsFold(c, events)
  {
  }

  lemma NoEvents<K>(p: Parsers<K>, routes: map<nat, Route>)
    ensures EventsOf(p, routes, []) == Some([])
  {
  }

  /** An event row is taken exactly if it is sealed, says an event, and that event is the
      next in number and alternates for its key. */
  lemma EventIsTaken<K(!new)>(p: Parsers<K>, c: Diagnostics<K>, events: seq<DiagnosticEvent<K>>, line: Line)
    requires IsFold(c, events)
    ensures var taken, event := EventStep(p, c, line), p.event(line, c.routes);
            && (taken.Take? <==>
                  && Sealed(line) && event.Some? && event.value.sequence == |events| + 1
                  && event.value.asserts == !Asserted(events, event.value.key))
            && (taken.Take? ==>
                  taken.event == event && taken.core.headerSeen == c.headerSeen && taken.core.routes == c.routes)
  {
    hide Sealed;
  }

  lemma EventIsReadable<K(!new)>(p: Parsers<K>, lines: seq<Line>, routes: map<nat, Route>,
                                 events: seq<DiagnosticEvent<K>>, line: Line)
    requires |lines| >= 10 && Readable(p, lines) && routes == RouteTable(p, RecoveryRows(lines))
    requires EventsOf(p, routes, EventRows(lines)) == Some(events)
    ensures |routes| == 9
    ensures var event := p.event(line, routes);
            && (Readable(p, lines + [line]) <==>
                  && IsAsciiLine(line) && Sealed(line) && event.Some? && event.value.sequence == |events| + 1
                  && event.value.asserts == !Asserted(events, event.value.key))
            && (IsAsciiLine(line) && Sealed(line) && event.Some? ==>
                  EventsOf(p, routes, EventRows(lines + [line])) == Some(events + [event.value]))
  {
    RowsSnoc(lines, line);
    TableIsExact(p, RecoveryRows(lines), Route(0, ""));
    EventsSnoc(p, routes, EventRows(lines), line);
    assert (lines + [line])[0] == lines[0];
    hide RoutesAgree, RecoveryRows, EventRows, RouteTable, EventsOf, IsAsciiLine, Sealed, WellFormed, Asserted;
    if p.event(line, routes).Some? {
      WellFormedSnoc(events, p.event(line, routes).value);
    }
  }

  lemma EventLine<K(!new)>(p: Parsers<K>, lines: seq<Line>, c: Diagnostics<K>, events: seq<DiagnosticEvent<K>>,
                           line: Line)
    requires |lines| >= 10 && Readable(p, lines) && Holds(p, lines, c, events)
    ensures var taken := DiagnosticStep(p, c, line);
            && (taken.Take? <==> Readable(p, lines + [line]))
            && (taken.Take? ==> taken.event.Some? && EventsOf(p, c.routes, EventRows(lines + [line])) ==
                                                     Some(events + [taken.event.value])
                                && taken.core.headerSeen && taken.core.routes == c.routes)
  {
    EventIsReadable(p, lines, c.routes, events, line);
    EventIsTaken(p, c, events, line);
    hide Readable, IsFold, EventStep, RouteTable, EventsOf, RecoveryRows, EventRows, IsAsciiLine, Sealed, Asserted;
  }

  lemma ReadableBefore<K(!new)>(p: Parsers<K>, lines: seq<Line>, line: Line)
    requires Readable(p, lines + [line])
    ensures Readable(p, lines)
  {
    if lines == [] {
      NoEvents(p, map[]);
    } else {
      RowsSnoc(lines, line);
      assert (lines + [line])[0] == lines[0];
      if |lines| < 10 {
        FrontAgrees(p, RecoveryRows(lines), line);
        ReadableRoutes(p, lines);
        hide RecoveryRows, EventRows, RoutesAgree, WellFormed;
      } else {
        var routes := RouteTable(p, RecoveryRows(lines));
        EventsSnoc(p, routes, EventRows(lines), line);
        hide RecoveryRows, EventRows, RoutesAgree, RouteTable, WellFormed;
        WellFormedSnoc(EventsOf(p, routes, EventRows(lines)).value, p.event(line, routes).value);
      }
    }
  }

  /** The diagnostic reader takes a file whole if and only if it is readable, and then
      it has delivered exactly the events its rows say. */
  lemma {:induction false} ReadsExactly<K(!new)>(p: Parsers<K>, lines: seq<Line>)
    ensures var batch := Diagnose(p, lines);
            && (!batch.failed <==> Readable(p, lines))
            && (!batch.failed ==>
                  EventsOf(p, RouteTable(p, RecoveryRows(lines)), EventRows(lines)) == Some(batch.events))
    ensures !Diagnose(p, lines).failed ==> Holds(p, lines, Diagnose(p, lines).core, Diagnose(p, lines).events)
  {
    if lines == [] {
      assert Diagnose(p, lines) == Batched(NewDiagnostics(), [], false);
      NoEvents(p, map[]);
    } else {
      var n := |lines| - 1;
      var front, last := lines[..n], lines[n];
      assert lines == front + [last];
      ReadsExactly(p, front);
      ActiveSetIsTheFold(p, lines);
      BatchSnoc(Stepper(p), NewDiagnostics(), front, last);
      hide Readable, Holds, DiagnosticStep;
      var before := Diagnose(p, front);
      if before.failed {
        if Readable(p, lines) {
          ReadableBefore(p, front, last);
        }
      } else {
        LineIsRead(p, front, before.core, before.events, last);
      }
    }
  }

  lemma LineIsRead<K(!new)>(p: Parsers<K>, front: seq<Line>, c: Diagnostics<K>, events: seq<DiagnosticEvent<K>>,
                            last: Line)
    requires Readable(p, front) && Holds(p, front, c, events)
    requires front == [] ==> c == NewDiagnostics() && events == []
    ensures var taken := DiagnosticStep(p, c, last);
            && (taken.Take? <==> Readable(p, front + [last]))
            && (taken.Take? && IsFold(taken.core, events + Queue(taken.event)) ==>
                  Holds(p, front + [last], taken.core, events + Queue(taken.event)))
  {
    assert events + [] == events;
    if front == [] {
      HeaderLine(p, last);
      assert front + [last] == [last];
    } else if |front| < 10 {
      RouteLine(p, front, c, events, last);
    } else {
      RowsSnoc(front, last);
      EventLine(p, front, c, events, last);
    }
    hide Readable, DiagnosticStep, IsFold;
  }

  // -------------------------------------------------------------- the error reader

  /** Every line is sealed ASCII; the header says the success codes, and each further
      line an event numbered 1, 2, 3. */
  predicate ErrorsReadable<D(==)>(p: ErrorParsers<D>, lines: seq<Line>) {
    && (forall line <- lines :: IsAsciiLine(line) && Sealed(line))
    && (lines != [] ==> p.header(lines[0]).Some?)
    && forall i | 1 <= i < |lines| ::
         && p.event(lines[i], p.header(lines[0]).value).Some?
         && p.event(lines[i], p.header(lines[0]).value).value.sequence == i
  }

  lemma ErrorsReadableSnoc<D>(p: ErrorParsers<D>, lines: seq<Line>, line: Line)
    ensures ErrorsReadable(p, lines + [line]) <==>
            && ErrorsReadable(p, lines) && IsAsciiLine(line) && Sealed(line)
            && if lines == [] then p.header(line).Some?
               else
                 && p.event(line, p.header(lines[0]).value).Some?
                 && p.event(line, p.header(lines[0]).value).value.sequence == |lines|
  {
    hide IsAsciiLine, Sealed;
    var all, n := lines + [line], |lines|;
    assert all[n] == line && forall i | 0 <= i < n :: all[i] == lines[i];
    if ErrorsReadable(p, all) {
      forall x <- lines ensures IsAsciiLine(x) && Sealed(x) {
        assert x in all;
      }
      assert line in all;
    }
  }

  /** The error reader takes a file whole if and only if it is readable. */
  lemma {:induction false} ErrorsReadExactly<D>(p: ErrorParsers<D>, lines: seq<Line>)
    ensures !ErrorBatch(p, lines).failed <==> ErrorsReadable(p, lines)
  {
    if lines == [] {
      assert ErrorBatch(p, lines) == Batched(Errors(None, 1), [], false);
    } else {
      var n := |lines| - 1;
      var front, last := lines[..n], lines[n];
      assert lines == front + [last];
      ErrorsReadExactly(p, front);
      ErrorEventsAreTheLines(p, front);
      BatchSnoc(ErrorStepper(p), Errors(None, 1), front, last);
      ErrorsReadableSnoc(p, front, last);
      hide IsAsciiLine, Sealed, ErrorsReadable, ErrorsPlaced;
    }
  }
}
