/**
 Hours per assignee: for one user on one issue, the time between consecutive events inside
 the user's assignment periods. Times are integer milliseconds.
 */
module AssigneeHours {
  import opened Options
  import opened Labels
  import opened Assignees
  import opened Silver
  import opened LifecycleRollup
  import opened Instants

  datatype Period = Period(from: int, to: int)

  /** The earliest DONE event strictly after an instant. */
  function FirstDoneAfter(events: seq<IssueEvent>, t: int): (r: Option<int>)
    ensures r.Some? ==> r.value > t
  {
    if events == [] then None
    else
      var e, rest := events[0], FirstDoneAfter(events[1..], t);
      if e.state != DONE || e.at <= t then rest
      else Some(if rest.Some? then Min(rest.value, e.at) else e.at)
  }

  lemma {:induction false} FirstDoneAfterIsEarliest(events: seq<IssueEvent>, t: int)
    ensures FirstDoneAfter(events, t).Some? <==> exists e :: e in events && e.state == DONE && e.at > t
    ensures FirstDoneAfter(events, t).Some? ==>
              exists e :: e in events && e.state == DONE && e.at == FirstDoneAfter(events, t).value
    ensures FirstDoneAfter(events, t).Some? ==>
              forall e :: e in events && e.state == DONE && e.at > t ==> FirstDoneAfter(events, t).value <= e.at
  {
    if events != [] {
      FirstDoneAfterIsEarliest(events[1..], t);
      assert events == [events[0]] + events[1..];
    }
  }

  /** COALESCE(unassigned_at, first DONE after assigned_at, NOW()) */
  function PeriodEnd(e: Entry, events: seq<IssueEvent>, now: int): int {
    if e.unassignedAt.Some? then e.unassignedAt.value
    else if FirstDoneAfter(events, e.assignedAt).Some? then FirstDoneAfter(events, e.assignedAt).value
    else now
  }

  function PeriodsOf(es: seq<Entry>, u: string, events: seq<IssueEvent>, now: int): seq<Period> {
    if es == [] then []
    else (if es[0].username == u then [Period(es[0].assignedAt, PeriodEnd(es[0], events, now))] else []) +
         PeriodsOf(es[1..], u, events, now)
  }

  /** A row of the left join: a period with one of its non-noise events, or alone when it has none. */
  datatype JoinRow = JoinRow(period: nat, event: Option<nat>)

  predicate Inside(p: Period, e: IssueEvent) {
    !e.noise && p.from <= e.at < p.to
  }

  ghost predicate Empty(p: Period, events: seq<IssueEvent>) {
    forall e :: 0 <= e < |events| ==> !Inside(p, events[e])
  }

  ghost predicate Joined(r: JoinRow, ps: seq<Period>, events: seq<IssueEvent>) {
    && r.period < |ps|
    && match r.event
       case Some(e) => e < |events| && Inside(ps[r.period], events[e])
       case None => Empty(ps[r.period], events)
  }

  ghost predicate WellTyped(rows: seq<JoinRow>, ps: seq<Period>, events: seq<IssueEvent>) {
    forall i :: 0 <= i < |rows| ==> Joined(rows[i], ps, events)
  }

  /** Ascending event timestamps, NULL last. */
  predicate NotAfterRow(a: JoinRow, b: JoinRow, events: seq<IssueEvent>)
    requires a.event.Some? ==> a.event.value < |events|
    requires b.event.Some? ==> b.event.value < |events|
  {
    b.event.None? || (a.event.Some? && events[a.event.value].at <= events[b.event.value].at)
  }

  /** The rows of the join in some order the window may see: ties are broken in any way. */
  ghost predicate WindowOrder(rows: seq<JoinRow>, ps: seq<Period>, events: seq<IssueEvent>) {
    && WellTyped(rows, ps, events)
    && (forall i, j :: 0 <= i < j < |rows| ==> rows[i] != rows[j] && NotAfterRow(rows[i], rows[j], events))
    && (forall r :: Joined(r, ps, events) ==> r in rows)
  }

  ghost predicate Disjoint(ps: seq<Period>) {
    && (forall i :: 0 <= i < |ps| ==> ps[i].from <= ps[i].to)
    && (forall i, j :: 0 <= i < j < |ps| ==> ps[i].to <= ps[j].from)
  }

  /**
   LEAST(next_state_change, to) - GREATEST(state_changed_at, from), where LEAD yields the period end
   only on the last row, and NULL in front of a row without an event; LEAST and GREATEST ignore NULL.
   */
  function RowMillis(rows: seq<JoinRow>, i: nat, ps: seq<Period>, events: seq<IssueEvent>): int
    requires i < |rows| && WellTyped(rows, ps, events)
  {
    var p := ps[rows[i].period];
    var next := if i + 1 == |rows| then Some(p.to)
                else if rows[i + 1].event.Some? then Some(events[rows[i + 1].event.value].at)
                else None;
    (if next.Some? then Min(next.value, p.to) else p.to) -
    (if rows[i].event.Some? then Max(events[rows[i].event.value].at, p.from) else p.from)
  }

  function StateOfRow(r: JoinRow, events: seq<IssueEvent>): Option<State>
    requires r.event.Some? ==> r.event.value < |events|
  {
    if r.event.Some? then Some(events[r.event.value].state) else None
  }

  /** SUM(hours_in_state) over the rows from i on whose state is in the set; None is the NULL state. */
  function MillisIn(rows: seq<JoinRow>, i: nat, states: set<Option<State>>, ps: seq<Period>,
                    events: seq<IssueEvent>): int
    requires i <= |rows| && WellTyped(rows, ps, events)
    decreases |rows| - i
  {
    if i == |rows| then 0
    else (if StateOfRow(rows[i], events) in states then RowMillis(rows, i, ps, events) else 0) +
         MillisIn(rows, i + 1, states, ps, events)
  }

  /** SUM over all rows, whatever their state. */
  function TotalMillis(rows: seq<JoinRow>, i: nat, ps: seq<Period>, events: seq<IssueEvent>): int
    requires i <= |rows| && WellTyped(rows, ps, events)
    decreases |rows| - i
  {
    if i == |rows| then 0 else RowMillis(rows, i, ps, events) + TotalMillis(rows, i + 1, ps, events)
  }

  // ---- The window has an order to see ----

  ghost predicate Refers(rows: seq<JoinRow>, events: seq<IssueEvent>) {
    forall i :: 0 <= i < |rows| && rows[i].event.Some? ==> rows[i].event.value < |events|
  }

  ghost predicate InOrder(rows: seq<JoinRow>, events: seq<IssueEvent>)
    requires Refers(rows, events)
  {
    forall i, j :: 0 <= i < j < |rows| ==> rows[i] != rows[j] && NotAfterRow(rows[i], rows[j], events)
  }

  lemma FirstInOrder(r: JoinRow, rest: seq<JoinRow>, events: seq<IssueEvent>)
    requires Refers(rest, events) && InOrder(rest, events) && Refers([r], events)
    requires forall i :: 0 <= i < |rest| ==> rest[i] != r && NotAfterRow([r][0], rest[i], events)
    ensures Refers([r] + rest, events) && InOrder([r] + rest, events)
  {
    var rows := [r] + rest;
    assert forall i :: 1 <= i < |rows| ==> rows[i] == rest[i - 1];
  }

  /** A new row goes in front of the first row that it is not after. */
  lemma {:induction false} RowInserts(rows: seq<JoinRow>, r: JoinRow, events: seq<IssueEvent>)
    returns (more: seq<JoinRow>)
    requires Refers(rows, events) && InOrder(rows, events) && Refers([r], events) && r !in rows
    ensures forall q :: q in more <==> q in rows || q == r
    ensures Refers(more, events) && InOrder(more, events)
  {
    assert [r][0] == r;
    if rows == [] || NotAfterRow(r, rows[0], events) {
      more := [r] + rows;
      FirstInOrder(r, rows, events);
    } else {
      var first, rest := rows[0], rows[1..];
      assert rows == [first] + rest;
      more := RowInserts(rest, r, events);
      forall i | 0 <= i < |more|
        ensures more[i] != first && NotAfterRow(first, more[i], events)
      {
        assert more[i] in more;
      }
      FirstInOrder(first, more, events);
      more := [first] + more;
    }
  }

  lemma {:induction false} RowsSort(rows: set<JoinRow>, events: seq<IssueEvent>) returns (sorted: seq<JoinRow>)
    requires forall r :: r in rows && r.event.Some? ==> r.event.value < |events|
    ensures forall r :: r in sorted <==> r in rows
    ensures Refers(sorted, events) && InOrder(sorted, events)
  {
    if rows == {} {
      sorted := [];
    } else {
      var r :| r in rows;
      sorted := RowsSort(rows - {r}, events);
      sorted := RowInserts(sorted, r, events);
    }
  }

  /** Every set of periods and events has its rows in an order that the window may see. */
  lemma WindowOrderExists(ps: seq<Period>, events: seq<IssueEvent>) returns (rows: seq<JoinRow>)
    ensures WindowOrder(rows, ps, events)
  {
    var none := set p: nat | p < |ps| :: JoinRow(p, None);
    var some := set p: nat, e: nat | p < |ps| && e < |events| :: JoinRow(p, Some(e));
    var all := set r | r in none + some && Joined(r, ps, events);
    assert forall r :: Joined(r, ps, events) ==> r in all;
    rows := RowsSort(all, events);
    assert forall i :: 0 <= i < |rows| ==> rows[i] in rows;
  }

  // ---- What a period contributes ----

  /** An event inside the period with no later one up to instant t. */
  ghost predicate Latest(p: Period, events: seq<IssueEvent>, e: nat, t: int) {
    && e < |events| && Inside(p, events[e]) && events[e].at <= t
    && forall f :: 0 <= f < |events| && Inside(p, events[f]) && events[f].at <= t ==> events[f].at <= events[e].at
  }

  /** Instant t of the period counts for the states: the state of its latest event, or NULL when it has no events. */
  ghost predicate CountsFor(p: Period, events: seq<IssueEvent>, states: set<Option<State>>, t: int) {
    if Empty(p, events) then None in states
    else exists e: nat :: Latest(p, events, e, t) && Some(events[e].state) in states
  }

  ghost function Counting(p: Period, events: seq<IssueEvent>, states: set<Option<State>>): int -> bool {
    t => CountsFor(p, events, states, t)
  }

  /** The milliseconds of the periods that count for the states. */
  ghost function SumCounting(ps: seq<Period>, events: seq<IssueEvent>, states: set<Option<State>>): nat {
    if ps == [] then 0
    else
      var p := ps[|ps| - 1];
      SumCounting(ps[..|ps| - 1], events, states) + CountIf(Counting(p, events, states), p.from, p.to)
  }

  /** Events of one period and one instant are either all in the states or all outside. */
  ghost predicate TiesAgree(ps: seq<Period>, events: seq<IssueEvent>, states: set<Option<State>>) {
    forall p, e, f | 0 <= p < |ps| && 0 <= e < |events| && 0 <= f < |events| && Tied(ps[p], events[e], events[f]) ::
      Some(events[e].state) in states <==> Some(events[f].state) in states
  }

  predicate Tied(p: Period, e: IssueEvent, f: IssueEvent) {
    Inside(p, e) && Inside(p, f) && e.at == f.at
  }

  // ---- The window adds up to what the periods contribute ----

  /** The first row of period p at or after position i. */
  function NextRow(rows: seq<JoinRow>, i: nat, p: nat): (j: nat)
    requires i <= |rows|
    ensures i <= j <= |rows|
    ensures j < |rows| ==> rows[j].period == p
    ensures forall k :: i <= k < j ==> rows[k].period != p
    decreases |rows| - i
  {
    if i == |rows| || rows[i].period == p then i else NextRow(rows, i + 1, p)
  }

  function StartOf(r: JoinRow, ps: seq<Period>, events: seq<IssueEvent>): int
    requires r.period < |ps| && (r.event.Some? ==> r.event.value < |events|)
  {
    if r.event.Some? then events[r.event.value].at else ps[r.period].from
  }

  /** What the rows from i on contribute to period p. */
  ghost function Rest(rows: seq<JoinRow>, i: nat, p: nat, states: set<Option<State>>,
                      ps: seq<Period>, events: seq<IssueEvent>): int
    requires i <= |rows| && WellTyped(rows, ps, events) && p < |ps|
  {
    var j := NextRow(rows, i, p);
    if j == |rows| then 0
    else CountIf(Counting(ps[p], events, states), StartOf(rows[j], ps, events), ps[p].to)
  }

  ghost function Rests(rows: seq<JoinRow>, i: nat, states: set<Option<State>>, ps: seq<Period>,
                       events: seq<IssueEvent>): nat -> int
    requires i <= |rows| && WellTyped(rows, ps, events)
  {
    (p: nat) => if p < |ps| then Rest(rows, i, p, states, ps, events) else 0
  }

  ghost function SumTo(f: nat -> int, n: nat): int {
    if n == 0 then 0 else SumTo(f, n - 1) + f(n - 1)
  }

  lemma {:induction false} SumsDifferAt(f: nat -> int, g: nat -> int, p: nat, n: nat)
    requires forall q: nat :: q < n && q != p ==> f(q) == g(q)
    ensures SumTo(f, n) - SumTo(g, n) == if p < n then f(p) - g(p) else 0
  {
    if n > 0 {
      SumsDifferAt(f, g, p, n - 1);
    }
  }

  /** An instant lies in at most one period. */
  lemma OnePeriodAtATime(ps: seq<Period>, p: nat, q: nat, t: int)
    requires Disjoint(ps) && p < |ps| && q < |ps|
    requires ps[p].from <= t < ps[p].to && ps[q].from <= t < ps[q].to
    ensures p == q
  {
  }

  lemma InsideIsNotEmpty(p: Period, events: seq<IssueEvent>, e: nat)
    requires e < |events| && Inside(p, events[e])
    ensures !Empty(p, events)
  {
  }

  lemma NullRowStandsAlone(a: JoinRow, b: JoinRow, ps: seq<Period>, events: seq<IssueEvent>)
    requires Joined(a, ps, events) && Joined(b, ps, events) && a.period == b.period
    ensures a.event.None? <==> b.event.None?
  {
    if a.event.Some? {
      InsideIsNotEmpty(ps[a.period], events, a.event.value);
    }
    if b.event.Some? {
      InsideIsNotEmpty(ps[b.period], events, b.event.value);
    }
  }

  lemma SharedPeriodHasEvents(rows: seq<JoinRow>, i: nat, j: nat, ps: seq<Period>, events: seq<IssueEvent>)
    requires WindowOrder(rows, ps, events) && i < j < |rows| && rows[i].period == rows[j].period
    ensures rows[i].event.Some? && rows[j].event.Some?
  {
    NullRowStandsAlone(rows[i], rows[j], ps, events);
  }

  /** The rows of a period are adjacent: a row followed by another of its period is followed by it at once. */
  lemma RowsOfPeriodAreAdjacent(rows: seq<JoinRow>, i: nat, ps: seq<Period>, events: seq<IssueEvent>)
    requires WindowOrder(rows, ps, events) && Disjoint(ps) && i < |rows|
    requires NextRow(rows, i + 1, rows[i].period) < |rows|
    ensures rows[i + 1].period == rows[i].period
    ensures rows[i].event.Some? && rows[i + 1].event.Some?
  {
    var j := NextRow(rows, i + 1, rows[i].period);
    SharedPeriodHasEvents(rows, i, j, ps, events);
    var a, b, c := rows[i], rows[i + 1], rows[j];
    assert NotAfterRow(a, b, events) && (b == c || NotAfterRow(b, c, events));
    OnePeriodAtATime(ps, a.period, b.period, events[b.event.value].at);
  }

  /** When the rows of a period are over, the next event lies at or behind its end. */
  lemma OtherPeriodComesAfter(rows: seq<JoinRow>, i: nat, ps: seq<Period>, events: seq<IssueEvent>)
    requires WindowOrder(rows, ps, events) && Disjoint(ps) && i + 1 < |rows|
    requires rows[i].event.Some? && rows[i + 1].event.Some? && rows[i].period != rows[i + 1].period
    ensures events[rows[i + 1].event.value].at >= ps[rows[i].period].to
  {
    assert NotAfterRow(rows[i], rows[i + 1], events);
    var t := events[rows[i + 1].event.value].at;
    if t < ps[rows[i].period].to {
      OnePeriodAtATime(ps, rows[i].period, rows[i + 1].period, t);
    }
  }

  /** Where row i ends: at the next row of its period, or with the period. */
  function EndOf(rows: seq<JoinRow>, i: nat, ps: seq<Period>, events: seq<IssueEvent>): int
    requires i < |rows| && WellTyped(rows, ps, events)
  {
    var j := NextRow(rows, i + 1, rows[i].period);
    if j < |rows| then StartOf(rows[j], ps, events) else ps[rows[i].period].to
  }

  /** Although the window runs over all periods of the user, a row lasts until the end it has in its own period. */
  lemma RowLastsInItsPeriod(rows: seq<JoinRow>, i: nat, ps: seq<Period>, events: seq<IssueEvent>)
    requires WindowOrder(rows, ps, events) && Disjoint(ps) && i < |rows|
    ensures RowMillis(rows, i, ps, events) == EndOf(rows, i, ps, events) - StartOf(rows[i], ps, events) >= 0
    ensures EndOf(rows, i, ps, events) <= ps[rows[i].period].to
  {
    if NextRow(rows, i + 1, rows[i].period) < |rows| {
      RowsOfPeriodAreAdjacent(rows, i, ps, events);
      assert NotAfterRow(rows[i], rows[i + 1], events);
    } else if i + 1 < |rows| && rows[i].event.Some? && rows[i + 1].event.Some? {
      OtherPeriodComesAfter(rows, i, ps, events);
    } else if i + 1 < |rows| {
      assert NotAfterRow(rows[i], rows[i + 1], events);
    }
  }

  /** A later row of the period does not start before a row has ended. */
  lemma LaterRowStartsLater(rows: seq<JoinRow>, i: nat, m: nat, ps: seq<Period>, events: seq<IssueEvent>)
    requires WindowOrder(rows, ps, events) && i < m < |rows| && rows[i].period == rows[m].period
    ensures EndOf(rows, i, ps, events) <= StartOf(rows[m], ps, events)
  {
    var j := NextRow(rows, i + 1, rows[i].period);
    SharedPeriodHasEvents(rows, i, j, ps, events);
    SharedPeriodHasEvents(rows, i, m, ps, events);
    assert j == m || NotAfterRow(rows[j], rows[m], events);
  }

  /** Up to its end, no event of its period is later than the event of a row. */
  lemma RowIsLatest(rows: seq<JoinRow>, i: nat, ps: seq<Period>, events: seq<IssueEvent>, t: int)
    requires WindowOrder(rows, ps, events) && Disjoint(ps) && i < |rows| && rows[i].event.Some?
    requires StartOf(rows[i], ps, events) <= t < EndOf(rows, i, ps, events)
    ensures Latest(ps[rows[i].period], events, rows[i].event.value, t)
  {
    var q := rows[i].period;
    forall f | 0 <= f < |events| && Inside(ps[q], events[f]) && events[f].at <= t
      ensures events[f].at <= events[rows[i].event.value].at
    {
      assert Joined(JoinRow(q, Some(f)), ps, events);
      var m :| 0 <= m < |rows| && rows[m] == JoinRow(q, Some(f));
      assert m < i ==> NotAfterRow(rows[m], rows[i], events);
      if m > i {
        LaterRowStartsLater(rows, i, m, ps, events);
      }
    }
  }

  lemma RowCounts(rows: seq<JoinRow>, i: nat, states: set<Option<State>>, ps: seq<Period>, events: seq<IssueEvent>,
                  t: int)
    requires WindowOrder(rows, ps, events) && Disjoint(ps) && TiesAgree(ps, events, states) && i < |rows|
    requires StartOf(rows[i], ps, events) <= t < EndOf(rows, i, ps, events)
    ensures CountsFor(ps[rows[i].period], events, states, t) <==> StateOfRow(rows[i], events) in states
  {
    var p, r := ps[rows[i].period], rows[i];
    if r.event.Some? {
      RowIsLatest(rows, i, ps, events, t);
      InsideIsNotEmpty(p, events, r.event.value);
      if CountsFor(p, events, states, t) {
        var e: nat :| Latest(p, events, e, t) && Some(events[e].state) in states;
        assert Tied(ps[r.period], events[e], events[r.event.value]);
      }
    }
  }

  /** A row contributes exactly what it adds to its own period. */
  lemma RowAddsToItsPeriod(rows: seq<JoinRow>, i: nat, states: set<Option<State>>,
                           ps: seq<Period>, events: seq<IssueEvent>)
    requires WindowOrder(rows, ps, events) && Disjoint(ps) && TiesAgree(ps, events, states) && i < |rows|
    ensures (if StateOfRow(rows[i], events) in states then RowMillis(rows, i, ps, events) else 0) ==
            Rest(rows, i, rows[i].period, states, ps, events) - Rest(rows, i + 1, rows[i].period, states, ps, events)
    ensures RowMillis(rows, i, ps, events) >= 0
  {
    var p := ps[rows[i].period];
    var f, a, b := Counting(p, events, states), StartOf(rows[i], ps, events), EndOf(rows, i, ps, events);
    RowLastsInItsPeriod(rows, i, ps, events);
    CountSplits(f, a, b, p.to);
    forall t | a <= t < b
      ensures f(t) <==> StateOfRow(rows[i], events) in states
    {
      RowCounts(rows, i, states, ps, events, t);
    }
    if StateOfRow(rows[i], events) in states {
      CountsAll(f, a, b);
    } else {
      CountsNone(f, a, b);
    }
  }

  lemma OtherRowsDoNotCount(rows: seq<JoinRow>, i: nat, p: nat, states: set<Option<State>>,
                            ps: seq<Period>, events: seq<IssueEvent>)
    requires WellTyped(rows, ps, events) && i < |rows| && p < |ps|
    ensures rows[i].period != p ==> Rest(rows, i, p, states, ps, events) == Rest(rows, i + 1, p, states, ps, events)
  {
  }

  lemma {:induction false} SumRestStep(
    rows: seq<JoinRow>, i: nat, states: set<Option<State>>, ps: seq<Period>, events: seq<IssueEvent>)
    requires WellTyped(rows, ps, events) && i < |rows|
    ensures var p := rows[i].period;
            SumTo(Rests(rows, i, states, ps, events), |ps|) - SumTo(Rests(rows, i + 1, states, ps, events), |ps|) ==
            Rest(rows, i, p, states, ps, events) - Rest(rows, i + 1, p, states, ps, events)
  {
    var f, g := Rests(rows, i, states, ps, events), Rests(rows, i + 1, states, ps, events);
    forall q: nat | q < |ps| && q != rows[i].period
      ensures f(q) == g(q)
    {
      OtherRowsDoNotCount(rows, i, q, states, ps, events);
    }
    SumsDifferAt(f, g, rows[i].period, |ps|);
  }

  lemma {:induction false} SumOfNothing(f: nat -> int, n: nat)
    requires forall p: nat :: p < n ==> f(p) == 0
    ensures SumTo(f, n) == 0
  {
    if n > 0 {
      SumOfNothing(f, n - 1);
    }
  }

  lemma {:induction false} MillisAreSumRest(rows: seq<JoinRow>, i: nat, states: set<Option<State>>,
                                            ps: seq<Period>, events: seq<IssueEvent>)
    requires WindowOrder(rows, ps, events) && Disjoint(ps) && TiesAgree(ps, events, states) && i <= |rows|
    ensures MillisIn(rows, i, states, ps, events) == SumTo(Rests(rows, i, states, ps, events), |ps|)
    decreases |rows| - i
  {
    if i == |rows| {
      SumOfNothing(Rests(rows, i, states, ps, events), |ps|);
    } else {
      MillisAreSumRest(rows, i + 1, states, ps, events);
      RowAddsToItsPeriod(rows, i, states, ps, events);
      SumRestStep(rows, i, states, ps, events);
    }
  }

  /** The first row of a period carries its first event, and before that event nothing counts. */
  lemma RestIsAll(rows: seq<JoinRow>, p: nat, states: set<Option<State>>, ps: seq<Period>, events: seq<IssueEvent>)
    requires WindowOrder(rows, ps, events) && Disjoint(ps) && p < |ps|
    ensures Rest(rows, 0, p, states, ps, events) == CountIf(Counting(ps[p], events, states), ps[p].from, ps[p].to)
  {
    var f, j := Counting(ps[p], events, states), NextRow(rows, 0, p);
    if Empty(ps[p], events) {
      assert Joined(JoinRow(p, None), ps, events);
      assert j < |rows|;
    } else {
      var e :| 0 <= e < |events| && Inside(ps[p], events[e]);
      assert Joined(JoinRow(p, Some(e)), ps, events);
      assert j < |rows| && Joined(rows[j], ps, events);
      var first := StartOf(rows[j], ps, events);
      FirstRowIsFirst(rows, p, ps, events);
      CountsNone(f, ps[p].from, first);
      CountSplits(f, ps[p].from, first, ps[p].to);
    }
  }

  lemma FirstRowIsFirst(rows: seq<JoinRow>, p: nat, ps: seq<Period>, events: seq<IssueEvent>)
    requires WindowOrder(rows, ps, events) && p < |ps| && NextRow(rows, 0, p) < |rows|
    requires rows[NextRow(rows, 0, p)].event.Some?
    ensures forall e :: 0 <= e < |events| && Inside(ps[p], events[e]) ==>
              StartOf(rows[NextRow(rows, 0, p)], ps, events) <= events[e].at
  {
    var j := NextRow(rows, 0, p);
    forall e | 0 <= e < |events| && Inside(ps[p], events[e])
      ensures StartOf(rows[j], ps, events) <= events[e].at
    {
      assert Joined(JoinRow(p, Some(e)), ps, events);
      var m :| 0 <= m < |rows| && rows[m] == JoinRow(p, Some(e));
      assert j == m || NotAfterRow(rows[j], rows[m], events);
    }
  }

  lemma {:induction false} SumRestIsSum(rows: seq<JoinRow>, n: nat, states: set<Option<State>>,
                                        ps: seq<Period>, events: seq<IssueEvent>)
    requires WindowOrder(rows, ps, events) && Disjoint(ps) && n <= |ps|
    ensures SumTo(Rests(rows, 0, states, ps, events), n) == SumCounting(ps[..n], events, states)
  {
    if n > 0 {
      SumRestIsSum(rows, n - 1, states, ps, events);
      RestIsAll(rows, n - 1, states, ps, events);
      assert ps[..n][..n - 1] == ps[..n - 1];
    }
  }

  /**
   The hours of a set of states are the time inside the user's periods during which the latest event of
   the period was in one of the states, provided that no tie has one event in the set and one outside.
   */
  lemma HoursMeasureStates(rows: seq<JoinRow>, states: set<Option<State>>, ps: seq<Period>, events: seq<IssueEvent>)
    requires WindowOrder(rows, ps, events) && Disjoint(ps) && TiesAgree(ps, events, states)
    ensures MillisIn(rows, 0, states, ps, events) == SumCounting(ps, events, states)
  {
    MillisAreSumRest(rows, 0, states, ps, events);
    SumRestIsSum(rows, |ps|, states, ps, events);
    assert ps[..|ps|] == ps;
  }

  // ---- All states together ----

  const EVERY_STATE: set<Option<State>> := {None} + set s | s in ALL_STATES :: Some(s)

  lemma EveryRowCounts(r: JoinRow, events: seq<IssueEvent>)
    requires r.event.Some? ==> r.event.value < |events|
    ensures StateOfRow(r, events) in EVERY_STATE
  {
    if r.event.Some? {
      EveryStateIsListed(events[r.event.value].state);
    }
  }

  lemma {:induction false} TotalIsEveryState(rows: seq<JoinRow>, i: nat, ps: seq<Period>, events: seq<IssueEvent>)
    requires WellTyped(rows, ps, events) && i <= |rows|
    ensures TotalMillis(rows, i, ps, events) == MillisIn(rows, i, EVERY_STATE, ps, events)
    decreases |rows| - i
  {
    if i < |rows| {
      TotalIsEveryState(rows, i + 1, ps, events);
      EveryRowCounts(rows[i], events);
    }
  }

  /** The earliest non-noise event inside a period. */
  function FirstInside(p: Period, events: seq<IssueEvent>): Option<int> {
    if events == [] then None
    else
      var e, rest := events[0], FirstInside(p, events[1..]);
      if !Inside(p, e) then rest
      else Some(if rest.Some? then Min(rest.value, e.at) else e.at)
  }

  lemma {:induction false} FirstInsideIsMinimum(p: Period, events: seq<IssueEvent>)
    ensures FirstInside(p, events).None? <==> Empty(p, events)
    ensures var f := FirstInside(p, events);
            f.Some? ==>
              && (exists e :: 0 <= e < |events| && Inside(p, events[e]) && events[e].at == f.value)
              && (forall e :: 0 <= e < |events| && Inside(p, events[e]) ==> f.value <= events[e].at)
  {
    if events != [] {
      FirstInsideIsMinimum(p, events[1..]);
      assert forall e :: 1 <= e < |events| ==> events[e] == events[1..][e - 1];
    }
  }

  /** From the first event inside the period to its end, or the whole period when it holds no event. */
  function Share(p: Period, events: seq<IssueEvent>): int {
    var f := FirstInside(p, events);
    p.to - if f.Some? then f.value else p.from
  }

  function SumShares(ps: seq<Period>, events: seq<IssueEvent>): int {
    if ps == [] then 0 else SumShares(ps[..|ps| - 1], events) + Share(ps[|ps| - 1], events)
  }

  function SumLengths(ps: seq<Period>): int {
    if ps == [] then 0 else SumLengths(ps[..|ps| - 1]) + ps[|ps| - 1].to - ps[|ps| - 1].from
  }

  /** Among the first n events there is a latest one up to t, once there is any. */
  lemma {:induction false} LatestExists(p: Period, events: seq<IssueEvent>, t: int, n: nat, some: nat) returns (e: nat)
    requires some < n <= |events| && Inside(p, events[some]) && events[some].at <= t
    ensures e < n && Inside(p, events[e]) && events[e].at <= t
    ensures forall f :: 0 <= f < n && Inside(p, events[f]) && events[f].at <= t ==> events[f].at <= events[e].at
  {
    e := n - 1;
    if some < n - 1 {
      var before := LatestExists(p, events, t, n - 1, some);
      if !Inside(p, events[e]) || events[e].at > t || events[e].at < events[before].at {
        e := before;
      }
    } else if k :| 0 <= k < n - 1 && Inside(p, events[k]) && events[some].at <= events[k].at <= t {
      e := LatestExists(p, events, t, n - 1, k);
    }
  }

  lemma EventCounts(p: Period, events: seq<IssueEvent>, t: int, some: nat)
    requires some < |events| && Inside(p, events[some]) && events[some].at <= t
    ensures CountsFor(p, events, EVERY_STATE, t)
  {
    InsideIsNotEmpty(p, events, some);
    var e := LatestExists(p, events, t, |events|, some);
    EveryStateIsListed(events[e].state);
    assert Latest(p, events, e, t) && Some(events[e].state) in EVERY_STATE;
  }

  lemma ShareCounts(p: Period, events: seq<IssueEvent>)
    requires p.from <= p.to
    ensures CountIf(Counting(p, events, EVERY_STATE), p.from, p.to) == Share(p, events)
  {
    var f, first := Counting(p, events, EVERY_STATE), FirstInside(p, events);
    FirstInsideIsMinimum(p, events);
    if first.None? {
      CountsAll(f, p.from, p.to);
    } else {
      var some :| 0 <= some < |events| && Inside(p, events[some]) && events[some].at == first.value;
      CountsNone(f, p.from, first.value);
      forall t | first.value <= t < p.to
        ensures f(t)
      {
        EventCounts(p, events, t, some);
      }
      CountsAll(f, first.value, p.to);
      CountSplits(f, p.from, first.value, p.to);
    }
  }

  lemma {:induction false} SharesCount(ps: seq<Period>, events: seq<IssueEvent>)
    requires forall i :: 0 <= i < |ps| ==> ps[i].from <= ps[i].to
    ensures SumCounting(ps, events, EVERY_STATE) == SumShares(ps, events)
  {
    if ps != [] {
      SharesCount(ps[..|ps| - 1], events);
      ShareCounts(ps[|ps| - 1], events);
    }
  }

  /** However ties are broken, the hours of a user are the sum over the periods of what follows the first event. */
  lemma HoursAreSharesOfPeriods(rows: seq<JoinRow>, ps: seq<Period>, events: seq<IssueEvent>)
    requires WindowOrder(rows, ps, events) && Disjoint(ps)
    ensures TotalMillis(rows, 0, ps, events) == SumShares(ps, events)
  {
    assert TiesAgree(ps, events, EVERY_STATE) by {
      forall e: nat | e < |events| {
        EveryStateIsListed(events[e].state);
      }
    }
    TotalIsEveryState(rows, 0, ps, events);
    HoursMeasureStates(rows, EVERY_STATE, ps, events);
    SharesCount(ps, events);
  }

  lemma {:induction false} HoursSplitByState(rows: seq<JoinRow>, i: nat, a: set<Option<State>>, b: set<Option<State>>,
                                             ps: seq<Period>, events: seq<IssueEvent>)
    requires WindowOrder(rows, ps, events) && Disjoint(ps) && i <= |rows| && a !! b
    ensures MillisIn(rows, i, a + b, ps, events) == MillisIn(rows, i, a, ps, events) + MillisIn(rows, i, b, ps, events)
    ensures 0 <= MillisIn(rows, i, a, ps, events) <= TotalMillis(rows, i, ps, events)
    decreases |rows| - i
  {
    if i < |rows| {
      HoursSplitByState(rows, i + 1, a, b, ps, events);
      RowLastsInItsPeriod(rows, i, ps, events);
    }
  }

  // ---- Ties ----

  /** Exchange the rows at two positions. */
  function Swapped(rows: seq<JoinRow>, i: nat, j: nat): seq<JoinRow>
    requires i < j < |rows|
  {
    rows[i := rows[j]][j := rows[i]]
  }

  predicate SamePlace(a: JoinRow, b: JoinRow, events: seq<IssueEvent>) {
    && a.period == b.period && a.event.Some? && b.event.Some?
    && a.event.value < |events| && b.event.value < |events| && events[a.event.value].at == events[b.event.value].at
  }

  lemma SwapIsWindowOrder(rows: seq<JoinRow>, i: nat, j: nat, ps: seq<Period>, events: seq<IssueEvent>)
    requires WindowOrder(rows, ps, events) && i < j < |rows| && SamePlace(rows[i], rows[j], events)
    ensures WindowOrder(Swapped(rows, i, j), ps, events)
  {
    var swapped := Swapped(rows, i, j);
    assert forall k :: 0 <= k < |rows| ==>
             swapped[k] == if k == i then rows[j] else if k == j then rows[i] else rows[k];
    forall r | r in rows
      ensures r in swapped
    {
      var k :| 0 <= k < |rows| && rows[k] == r;
      assert swapped[if k == i then j else if k == j then i else k] == r;
    }
  }

  /** A swap at one place moves no boundary between rows. */
  lemma SwapKeepsMillis(rows: seq<JoinRow>, i: nat, j: nat, k: nat, ps: seq<Period>, events: seq<IssueEvent>)
    requires WellTyped(rows, ps, events) && i < j < |rows| && SamePlace(rows[i], rows[j], events) && k < |rows|
    ensures WellTyped(Swapped(rows, i, j), ps, events)
    ensures RowMillis(Swapped(rows, i, j), k, ps, events) == RowMillis(rows, k, ps, events)
  {
  }

  lemma {:induction false} SwapMoves(rows: seq<JoinRow>, i: nat, j: nat, k: nat, states: set<Option<State>>,
                                     ps: seq<Period>, events: seq<IssueEvent>)
    requires WellTyped(rows, ps, events) && i < j < |rows| && SamePlace(rows[i], rows[j], events) && k <= |rows|
    requires RowMillis(rows, i, ps, events) == 0
    requires StateOfRow(rows[i], events) in states <==> StateOfRow(rows[j], events) !in states
    ensures WellTyped(Swapped(rows, i, j), ps, events)
    ensures var moved := if k <= j then RowMillis(rows, j, ps, events) else 0;
            MillisIn(rows, k, states, ps, events) - MillisIn(Swapped(rows, i, j), k, states, ps, events) ==
            if StateOfRow(rows[j], events) in states then moved else -moved
    decreases |rows| - k
  {
    if k < |rows| {
      SwapMoves(rows, i, j, k + 1, states, ps, events);
      SwapKeepsMillis(rows, i, j, k, ps, events);
    } else {
      SwapKeepsMillis(rows, i, j, i, ps, events);
    }
  }

  /** The last row of a place lasts longer than no time. */
  lemma {:induction false} LastAtPlace(rows: seq<JoinRow>, m: nat, ps: seq<Period>, events: seq<IssueEvent>)
    returns (j: nat)
    requires WindowOrder(rows, ps, events) && Disjoint(ps) && m < |rows| && rows[m].event.Some?
    ensures m <= j < |rows| && SamePlace(rows[m], rows[j], events) && RowMillis(rows, j, ps, events) > 0
    decreases |rows| - m
  {
    j := m;
    if m + 1 < |rows| && rows[m + 1].event.Some? {
      assert NotAfterRow(rows[m], rows[m + 1], events);
      if events[rows[m + 1].event.value].at == events[rows[m].event.value].at {
        OnePeriodAtATime(ps, rows[m].period, rows[m + 1].period, events[rows[m].event.value].at);
        j := LastAtPlace(rows, m + 1, ps, events);
      }
    }
  }

  /** A row that is followed by another one of its place lasts no time. */
  lemma NotLastAtPlace(rows: seq<JoinRow>, i: nat, j: nat, ps: seq<Period>, events: seq<IssueEvent>)
    requires WindowOrder(rows, ps, events) && i < j < |rows| && SamePlace(rows[i], rows[j], events)
    ensures RowMillis(rows, i, ps, events) == 0
  {
    assert NotAfterRow(rows[i], rows[i + 1], events);
    assert i + 1 < j ==> NotAfterRow(rows[i + 1], rows[j], events);
    assert Joined(rows[i], ps, events);
  }

  lemma {:induction false} OrderMatters(rows: seq<JoinRow>, m: nat, n: nat, states: set<Option<State>>,
                     ps: seq<Period>, events: seq<IssueEvent>) returns (other: seq<JoinRow>)
    requires WindowOrder(rows, ps, events) && Disjoint(ps) && m < n < |rows| && SamePlace(rows[m], rows[n], events)
    requires StateOfRow(rows[m], events) in states <==> StateOfRow(rows[n], events) !in states
    ensures WindowOrder(other, ps, events)
    ensures MillisIn(other, 0, states, ps, events) != MillisIn(rows, 0, states, ps, events)
  {
    var j := LastAtPlace(rows, n, ps, events);
    var i := if StateOfRow(rows[m], events) in states <==> StateOfRow(rows[j], events) in states then n else m;
    NotLastAtPlace(rows, i, j, ps, events);
    SwapIsWindowOrder(rows, i, j, ps, events);
    SwapMoves(rows, i, j, 0, states, ps, events);
    other := Swapped(rows, i, j);
  }

  lemma TieMatters(p: nat, e: nat, f: nat, states: set<Option<State>>, ps: seq<Period>, events: seq<IssueEvent>)
    returns (a: seq<JoinRow>, b: seq<JoinRow>)
    requires Disjoint(ps) && p < |ps| && e < |events| && f < |events| && Tied(ps[p], events[e], events[f])
    requires Some(events[e].state) in states <==> Some(events[f].state) !in states
    ensures WindowOrder(a, ps, events) && WindowOrder(b, ps, events)
    ensures MillisIn(a, 0, states, ps, events) != MillisIn(b, 0, states, ps, events)
  {
    a := WindowOrderExists(ps, events);
    assert Joined(JoinRow(p, Some(e)), ps, events) && Joined(JoinRow(p, Some(f)), ps, events);
    var m :| 0 <= m < |a| && a[m] == JoinRow(p, Some(e));
    var n :| 0 <= n < |a| && a[n] == JoinRow(p, Some(f));
    if m < n {
      b := OrderMatters(a, m, n, states, ps, events);
    } else {
      b := OrderMatters(a, n, m, states, ps, events);
    }
  }

  /** Whatever order the window sees, the hours of the states are the same. */
  ghost predicate OrderFree(ps: seq<Period>, events: seq<IssueEvent>, states: set<Option<State>>) {
    forall a, b | WindowOrder(a, ps, events) && WindowOrder(b, ps, events) ::
      MillisIn(a, 0, states, ps, events) == MillisIn(b, 0, states, ps, events)
  }

  /** The hours of some states depend on the order of ties exactly when a tie has an event in them and one outside. */
  lemma OrderFreeIff(ps: seq<Period>, events: seq<IssueEvent>, states: set<Option<State>>)
    requires Disjoint(ps)
    ensures OrderFree(ps, events, states) <==> TiesAgree(ps, events, states)
  {
    if TiesAgree(ps, events, states) {
      forall a, b | WindowOrder(a, ps, events) && WindowOrder(b, ps, events)
        ensures MillisIn(a, 0, states, ps, events) == MillisIn(b, 0, states, ps, events)
      {
        HoursMeasureStates(a, states, ps, events);
        HoursMeasureStates(b, states, ps, events);
      }
    } else {
      var p: nat, e: nat, f: nat :|
        p < |ps| && e < |events| && f < |events| && Tied(ps[p], events[e], events[f]) &&
        (Some(events[e].state) in states <==> Some(events[f].state) !in states);
      var a, b := TieMatters(p, e, f, states, ps, events);
    }
  }

  /** No two non-noise events inside one period share an instant and differ in state. */
  ghost predicate NoTies(ps: seq<Period>, events: seq<IssueEvent>) {
    forall p, e, f | 0 <= p < |ps| && 0 <= e < |events| && 0 <= f < |events| && Tied(ps[p], events[e], events[f]) ::
      events[e].state == events[f].state
  }

  /** The whole split by state is independent of the order exactly when events of one period and instant agree. */
  lemma SplitIsOrderFreeIff(ps: seq<Period>, events: seq<IssueEvent>)
    requires Disjoint(ps)
    ensures (forall states :: OrderFree(ps, events, states)) <==> NoTies(ps, events)
  {
    forall states
      ensures NoTies(ps, events) ==> OrderFree(ps, events, states)
    {
      OrderFreeIff(ps, events, states);
    }
    if p, e, f :| 0 <= p < |ps| && 0 <= e < |events| && 0 <= f < |events| && Tied(ps[p], events[e], events[f])
                  && events[e].state != events[f].state {
      OrderFreeIff(ps, events, {Some(events[e].state)});
      assert !TiesAgree(ps, events, {Some(events[e].state)});
    }
  }
}
