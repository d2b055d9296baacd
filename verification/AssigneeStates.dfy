/** Hours per assignee in terms of the states in force: noise is invisible, and so is what precedes a period. */
module AssigneeStates {
  import opened Options
  import opened Labels
  import opened Silver
  import opened EventTimelines
  import opened StateTimeline
  import opened Instants
  import opened AssigneeHours

  /** The rows from an instant on. */
  function Since(rows: seq<IssueEvent>, from: int): seq<IssueEvent> {
    if rows == [] then []
    else Since(rows[..|rows| - 1], from) + if rows[|rows| - 1].at >= from then [rows[|rows| - 1]] else []
  }

  lemma {:induction false} SinceMembers(rows: seq<IssueEvent>, from: int)
    ensures forall r :: r in Since(rows, from) <==> r in rows && r.at >= from
  {
    if rows != [] {
      SinceMembers(rows[..|rows| - 1], from);
      assert rows == rows[..|rows| - 1] + [rows[|rows| - 1]];
    }
  }

  lemma {:induction false} SinceStaysSorted(rows: seq<IssueEvent>, from: int)
    requires Sorted(rows)
    ensures Sorted(Since(rows, from))
  {
    if rows != [] {
      var front, last := rows[..|rows| - 1], rows[|rows| - 1];
      SinceStaysSorted(front, from);
      SinceMembers(front, from);
      assert rows == front + [last];
      SortedSnoc(Since(front, from), front, last);
    }
  }

  /** The state in force is that of a latest row so far. */
  lemma {:induction false} InForceIsLatest(rows: seq<IssueEvent>, t: int) returns (i: nat)
    requires Sorted(rows)
    ensures InForce(rows, t).None? ==> forall r :: r in rows ==> r.at > t
    ensures InForce(rows, t).Some? ==>
              && i < |rows| && InForce(rows, t) == Some(rows[i].state) && rows[i].at <= t
              && forall r :: r in rows && r.at <= t ==> r.at <= rows[i].at
  {
    i := 0;
    if rows != [] {
      var n := |rows| - 1;
      if rows[n].at <= t {
        i := n;
      } else {
        i := InForceIsLatest(rows[..n], t);
        assert forall r :: r in rows ==> r in rows[..n] || r == rows[n];
      }
    }
  }

  // ---- What a period sees ----

  /** The non-noise rows from the start of the period on, in time order. */
  function Visible(p: Period, rows: seq<IssueEvent>): seq<IssueEvent> {
    Since(Kept(InTimeOrder(rows)), p.from)
  }

  lemma VisibleRows(p: Period, rows: seq<IssueEvent>)
    ensures Sorted(Visible(p, rows))
    ensures forall r :: r in Visible(p, rows) <==> r in rows && !r.noise && r.at >= p.from
  {
    InTimeOrderSorts(rows);
    InTimeOrderKeepsRows(rows);
    KeptMembers(InTimeOrder(rows));
    KeptStaySorted(InTimeOrder(rows));
    SinceMembers(Kept(InTimeOrder(rows)), p.from);
    SinceStaysSorted(Kept(InTimeOrder(rows)), p.from);
  }

  /** No row counts inside the period. */
  ghost predicate Uneventful(p: Period, rows: seq<IssueEvent>) {
    forall r :: r in rows ==> r.noise || r.at < p.from || r.at >= p.to
  }

  /**
   At the instant the period is in one of the states: the one in force among the rows it sees, or no state when
   nothing happens in it.
   */
  ghost predicate InOneOf(p: Period, rows: seq<IssueEvent>, states: set<Option<State>>, t: int) {
    if Uneventful(p, rows) then None in states
    else InForce(Visible(p, rows), t).Some? && InForce(Visible(p, rows), t) in states
  }

  lemma EmptyIsUneventful(p: Period, rows: seq<IssueEvent>)
    ensures Empty(p, rows) <==> Uneventful(p, rows)
  {
    if Empty(p, rows) {
      forall r | r in rows
        ensures r.noise || r.at < p.from || r.at >= p.to
      {
        var e :| 0 <= e < |rows| && rows[e] == r;
        assert !Inside(p, rows[e]);
      }
    }
  }

  lemma LatestIsInForce(p: Period, rows: seq<IssueEvent>, states: set<Option<State>>, t: int, e: nat)
    requires p.from <= t < p.to && TiesAgree([p], rows, states) && Latest(p, rows, e, t)
    ensures InForce(Visible(p, rows), t).Some?
    ensures InForce(Visible(p, rows), t) in states <==> Some(rows[e].state) in states
  {
    var visible := Visible(p, rows);
    VisibleRows(p, rows);
    var i := InForceIsLatest(visible, t);
    assert rows[e] in visible;
    assert visible[i] in visible;
    var f :| 0 <= f < |rows| && rows[f] == visible[i];
    assert Inside(p, rows[f]);
    assert Tied([p][0], rows[e], rows[f]);
  }

  lemma InForceIsLatestInside(p: Period, rows: seq<IssueEvent>, t: int) returns (e: nat)
    requires p.from <= t < p.to && InForce(Visible(p, rows), t).Some?
    ensures Latest(p, rows, e, t)
  {
    var visible := Visible(p, rows);
    VisibleRows(p, rows);
    var i := InForceIsLatest(visible, t);
    assert visible[i] in visible;
    e :| 0 <= e < |rows| && rows[e] == visible[i];
  }

  /** What counts for the states are the instants at which one of them is in force, as far as the period sees. */
  lemma CountsAreStatesInForce(p: Period, rows: seq<IssueEvent>, states: set<Option<State>>, t: int)
    requires p.from <= t < p.to && TiesAgree([p], rows, states)
    ensures CountsFor(p, rows, states, t) <==> InOneOf(p, rows, states, t)
  {
    EmptyIsUneventful(p, rows);
    if !Empty(p, rows) {
      if CountsFor(p, rows, states, t) {
        var e: nat :| Latest(p, rows, e, t) && Some(rows[e].state) in states;
        LatestIsInForce(p, rows, states, t, e);
      }
      if InOneOf(p, rows, states, t) {
        var e := InForceIsLatestInside(p, rows, t);
        LatestIsInForce(p, rows, states, t, e);
      }
    }
  }

  ghost function InStatesDuring(p: Period, rows: seq<IssueEvent>, states: set<Option<State>>): int -> bool {
    t => InOneOf(p, rows, states, t)
  }

  /** The milliseconds the periods spend in the states. */
  ghost function SumInStates(ps: seq<Period>, rows: seq<IssueEvent>, states: set<Option<State>>): nat {
    if ps == [] then 0
    else
      var p := ps[|ps| - 1];
      SumInStates(ps[..|ps| - 1], rows, states) + CountIf(InStatesDuring(p, rows, states), p.from, p.to)
  }

  lemma {:induction false} SumsAgree(ps: seq<Period>, rows: seq<IssueEvent>, states: set<Option<State>>)
    requires TiesAgree(ps, rows, states)
    ensures SumCounting(ps, rows, states) == SumInStates(ps, rows, states)
  {
    if ps != [] {
      var front, p := ps[..|ps| - 1], ps[|ps| - 1];
      assert forall q :: 0 <= q < |front| ==> front[q] == ps[q];
      SumsAgree(front, rows, states);
      assert TiesAgree([p], rows, states) by {
        assert forall e, f :: Tied([p][0], e, f) <==> Tied(ps[|ps| - 1], e, f);
      }
      forall t | p.from <= t < p.to
        ensures Counting(p, rows, states)(t) == InStatesDuring(p, rows, states)(t)
      {
        CountsAreStatesInForce(p, rows, states, t);
      }
      CountAgrees(Counting(p, rows, states), InStatesDuring(p, rows, states), p.from, p.to);
    }
  }

  /** The hours of a set of states are the time the periods spend in them, whatever order the window sees. */
  lemma HoursAreTimeInStates(window: seq<JoinRow>, states: set<Option<State>>, ps: seq<Period>, rows: seq<IssueEvent>)
    requires WindowOrder(window, ps, rows) && Disjoint(ps) && TiesAgree(ps, rows, states)
    ensures MillisIn(window, 0, states, ps, rows) == SumInStates(ps, rows, states)
  {
    HoursMeasureStates(window, states, ps, rows);
    SumsAgree(ps, rows, states);
  }

  // ---- Noise ----

  lemma KeptEventIn(rows: seq<IssueEvent>, e: nat) returns (k: nat)
    requires e < |rows| && !rows[e].noise
    ensures k < |Kept(rows)| && Kept(rows)[k] == rows[e]
  {
    KeptMembers(rows);
    assert rows[e] in Kept(rows);
    k :| 0 <= k < |Kept(rows)| && Kept(rows)[k] == rows[e];
  }

  lemma RowOfKept(rows: seq<IssueEvent>, k: nat) returns (e: nat)
    requires k < |Kept(rows)|
    ensures e < |rows| && rows[e] == Kept(rows)[k] && !rows[e].noise
  {
    KeptMembers(rows);
    assert Kept(rows)[k] in rows;
    e :| 0 <= e < |rows| && rows[e] == Kept(rows)[k];
  }

  lemma LatestOfKept(p: Period, rows: seq<IssueEvent>, e: nat, k: nat, t: int)
    requires e < |rows| && k < |Kept(rows)| && Kept(rows)[k] == rows[e]
    ensures Latest(p, rows, e, t) <==> Latest(p, Kept(rows), k, t)
  {
    KeptMembers(rows);
    if Latest(p, rows, e, t) {
      forall f: nat | f < |Kept(rows)| && Inside(p, Kept(rows)[f]) && Kept(rows)[f].at <= t
        ensures Kept(rows)[f].at <= rows[e].at
      {
        var g := RowOfKept(rows, f);
      }
    }
    if Latest(p, Kept(rows), k, t) {
      forall f: nat | f < |rows| && Inside(p, rows[f]) && rows[f].at <= t
        ensures rows[f].at <= rows[e].at
      {
        var g := KeptEventIn(rows, f);
      }
    }
  }

  /** Taking the noise away changes nothing about what counts. */
  lemma NoiseIsInvisible(p: Period, rows: seq<IssueEvent>, states: set<Option<State>>, t: int)
    ensures CountsFor(p, rows, states, t) <==> CountsFor(p, Kept(rows), states, t)
  {
    KeptMembers(rows);
    EmptyIsUneventful(p, rows);
    EmptyIsUneventful(p, Kept(rows));
    if e: nat :| Latest(p, rows, e, t) && Some(rows[e].state) in states {
      var k := KeptEventIn(rows, e);
      LatestOfKept(p, rows, e, k, t);
    }
    if k: nat :| Latest(p, Kept(rows), k, t) && Some(Kept(rows)[k].state) in states {
      var e := RowOfKept(rows, k);
      LatestOfKept(p, rows, e, k, t);
    }
  }

  lemma {:induction false} SumsIgnoreNoise(ps: seq<Period>, rows: seq<IssueEvent>, states: set<Option<State>>)
    ensures SumCounting(ps, rows, states) == SumCounting(ps, Kept(rows), states)
  {
    if ps != [] {
      var p := ps[|ps| - 1];
      SumsIgnoreNoise(ps[..|ps| - 1], rows, states);
      forall t
        ensures Counting(p, rows, states)(t) == Counting(p, Kept(rows), states)(t)
      {
        NoiseIsInvisible(p, rows, states, t);
      }
      CountAgrees(Counting(p, rows, states), Counting(p, Kept(rows), states), p.from, p.to);
    }
  }

  lemma TiesOfKept(ps: seq<Period>, rows: seq<IssueEvent>, states: set<Option<State>>)
    requires TiesAgree(ps, rows, states)
    ensures TiesAgree(ps, Kept(rows), states)
  {
    forall p, e: nat, f: nat | 0 <= p < |ps| && e < |Kept(rows)| && f < |Kept(rows)|
                               && Tied(ps[p], Kept(rows)[e], Kept(rows)[f])
      ensures Some(Kept(rows)[e].state) in states <==> Some(Kept(rows)[f].state) in states
    {
      var a := RowOfKept(rows, e);
      var b := RowOfKept(rows, f);
      assert Tied(ps[p], rows[a], rows[b]);
    }
  }

  /** The view reports the same hours with the noise rows and without them. */
  lemma HoursIgnoreNoise(window: seq<JoinRow>, kept: seq<JoinRow>, states: set<Option<State>>, ps: seq<Period>,
                         rows: seq<IssueEvent>)
    requires WindowOrder(window, ps, rows) && WindowOrder(kept, ps, Kept(rows))
    requires Disjoint(ps) && TiesAgree(ps, rows, states)
    ensures MillisIn(window, 0, states, ps, rows) == MillisIn(kept, 0, states, ps, Kept(rows))
  {
    TiesOfKept(ps, rows, states);
    HoursMeasureStates(window, states, ps, rows);
    HoursMeasureStates(kept, states, ps, Kept(rows));
    SumsIgnoreNoise(ps, rows, states);
  }
}
